/**
 * The arithmetic of the lap chart on the session page: where each lap is
 * drawn, where the playhead stands, which video time a click on the chart
 * asks for, and which drawn point a pointer is over.
 */
module Chart {
  import opened Optional
  import opened JsValues
  import opened Laps
  import opened Timeline
  import opened RealArith

  /** The margin around the plot area, in CSS pixels. */
  const Padding: real := 60.0

  /** A pointer this close to a point (15 pixels, squared) is over it. */
  const HitRadiusSquared: real := 225.0

  /**
   * The scales of one drawing: the canvas size, the longest lap list, and
   * the fastest and slowest lap times over all the lists drawn.
   */
  datatype Frame = Frame(width: real, height: real, maxLapsCount: nat, minTime: real, maxTime: real)

  function ChartWidth(f: Frame): real { f.width - Padding * 2.0 }

  function ChartHeight(f: Frame): real { f.height - Padding * 2.0 }

  /** `maxLapsCount - 1 || 1`: never 0. */
  function Divisor(maxLapsCount: nat): (d: int)
    ensures d != 0
    ensures maxLapsCount >= 1 ==> d >= 1
  {
    if maxLapsCount - 1 != 0 then maxLapsCount - 1 else 1
  }

  /** `maxTime - minTime || 1`: never 0. */
  function TimeRange(f: Frame): (r: real)
    ensures r != 0.0
    ensures f.minTime <= f.maxTime ==> r > 0.0
  {
    if f.maxTime - f.minTime != 0.0 then f.maxTime - f.minTime else 1.0
  }

  /** The horizontal distance between consecutive laps. */
  function Step(f: Frame): real
  {
    ChartWidth(f) / Divisor(f.maxLapsCount) as real
  }

  /** getCoords, x: lap index `i` (possibly fractional, as for the playhead). */
  function X(f: Frame, i: real): real
  {
    Padding + Step(f) * i
  }

  /** getCoords, y: the fastest time at the bottom of the plot, the slowest at the top. */
  function Y(f: Frame, lapTime: real): real
  {
    Padding + ChartHeight(f) - ((lapTime - f.minTime) / TimeRange(f)) * ChartHeight(f)
  }

  // ----- the frame of a drawing -----

  /** All lap times of all the lists drawn, in order (none is NaN, as parseTime never gives NaN). */
  function AllTimes(datasets: seq<seq<LapEntry>>): seq<real>
  {
    if datasets == [] then [] else Durations(datasets[0]) + AllTimes(datasets[1..])
  }

  /** The length of the longest list. */
  function MaxLength(datasets: seq<seq<LapEntry>>): (n: nat)
    ensures forall k :: 0 <= k < |datasets| ==> |datasets[k]| <= n
    ensures datasets != [] ==> exists k :: 0 <= k < |datasets| && |datasets[k]| == n
  {
    if datasets == [] then 0
    else
      var rest := MaxLength(datasets[1..]);
      assert forall k :: 1 <= k < |datasets| ==> datasets[k] == datasets[1..][k - 1];
      if |datasets[0]| >= rest then |datasets[0]| else rest
  }

  /** Math.max over a non-empty list of times. */
  function Slowest(times: seq<real>): (m: real)
    requires times != []
    ensures m in times
    ensures forall t :: t in times ==> t <= m
  {
    if |times| == 1 then times[0]
    else
      var rest := Slowest(times[1..]);
      assert forall t :: t in times ==> t == times[0] || t in times[1..];
      if times[0] >= rest then times[0] else rest
  }

  /** A list of `datasets` has a lap time exactly when one of its lists is non-empty. */
  lemma {:induction false} AllTimesEmpty(datasets: seq<seq<LapEntry>>)
    ensures AllTimes(datasets) == [] <==> forall k :: 0 <= k < |datasets| ==> datasets[k] == []
  {
    if datasets != [] {
      AllTimesEmpty(datasets[1..]);
      assert forall k :: 1 <= k < |datasets| ==> datasets[k] == datasets[1..][k - 1];
    }
  }

  /**
   * The scales drawLineChart sets up for the main laps and the comparison
   * laps; None when there is no lap time at all ("No lap data available").
   */
  function MakeFrame(width: real, height: real, mainLaps: seq<LapEntry>, compareLaps: seq<seq<LapEntry>>): (r: Option<Frame>)
    ensures r.None? <==> mainLaps == [] && forall k :: 0 <= k < |compareLaps| ==> compareLaps[k] == []
    ensures r.Some? ==> r.value.maxLapsCount >= 1 && r.value.minTime <= r.value.maxTime
    ensures r.Some? ==> forall t :: t in AllTimes([mainLaps] + compareLaps) ==> r.value.minTime <= t <= r.value.maxTime
  {
    var datasets := [mainLaps] + compareLaps;
    var times := AllTimes(datasets);
    AllTimesEmpty(datasets);
    assert forall k :: 0 <= k < |compareLaps| ==> compareLaps[k] == datasets[k + 1];
    if times == [] then None
    else
      assert exists k :: 0 <= k < |datasets| && datasets[k] != [];
      Some(Frame(width, height, MaxLength(datasets), Fastest(times), Slowest(times)))
  }

  /** Every lap of every list drawn lies inside the plot area. */
  lemma PointInPlot(f: Frame, i: nat, lapTime: real)
    requires ChartWidth(f) >= 0.0 && ChartHeight(f) >= 0.0
    requires f.maxLapsCount >= 1 && i < f.maxLapsCount
    requires f.minTime <= lapTime <= f.maxTime
    ensures Padding <= X(f, i as real) <= Padding + ChartWidth(f)
    ensures Padding <= Y(f, lapTime) <= Padding + ChartHeight(f)
  {
    XInPlot(f, i);
    YInPlot(f, lapTime);
  }

  /** The x of a lap index lies between the left and the right edge of the plot. */
  lemma XInPlot(f: Frame, i: nat)
    requires ChartWidth(f) >= 0.0 && f.maxLapsCount >= 1 && i < f.maxLapsCount
    ensures Padding <= X(f, i as real) <= Padding + ChartWidth(f)
  {
    var w := ChartWidth(f);
    var d := Divisor(f.maxLapsCount) as real;
    assert i as real <= d;
    ScaledIndex(w, d, i as real);
    assert X(f, i as real) == Padding + (w / d) * i as real;
  }

  /** An index between 0 and `d` scaled by `w / d` stays between 0 and `w`. */
  lemma ScaledIndex(w: real, d: real, i: real)
    requires w >= 0.0 && d >= 1.0 && 0.0 <= i <= d
    ensures 0.0 <= (w / d) * i <= w
  {
    var s := w / d;
    DivNonNegative(w, d);
    DivCancel(w, d);
    MulMono(s, i, d);
    MulMono(s, 0.0, i);
  }

  /** The y of a time between the fastest and the slowest lies between the top and the bottom edge. */
  lemma YInPlot(f: Frame, lapTime: real)
    requires ChartHeight(f) >= 0.0 && f.minTime <= lapTime <= f.maxTime
    ensures Padding <= Y(f, lapTime) <= Padding + ChartHeight(f)
  {
    var h := ChartHeight(f);
    var r := TimeRange(f);
    var q := (lapTime - f.minTime) / r;
    DivUnit(lapTime - f.minTime, r);
    MulMono(h, q, 1.0);
    MulMono(h, 0.0, q);
    assert Y(f, lapTime) == Padding + h - q * h;
  }

  /** The fastest time sits on the bottom edge; a faster lap is never drawn above a slower one. */
  lemma FasterIsLower(f: Frame, a: real, b: real)
    requires ChartHeight(f) >= 0.0 && f.minTime <= f.maxTime
    requires a <= b
    ensures Y(f, f.minTime) == Padding + ChartHeight(f)
    ensures Y(f, b) <= Y(f, a)
  {
    var r := TimeRange(f);
    DivMono(a - f.minTime, b - f.minTime, r);
    MulMono(ChartHeight(f), (a - f.minTime) / r, (b - f.minTime) / r);
  }

  // ----- the playhead -----

  /** `Math.max(0, Math.min(1, p))`. */
  function Clamp01(p: real): (r: real)
    ensures 0.0 <= r <= 1.0
    ensures 0.0 <= p <= 1.0 ==> r == p
  {
    if p > 1.0 then 1.0 else if p < 0.0 then 0.0 else p
  }

  /** `lapStartTimes.find(l => l.lapNumber === n)`: the start of the first entry for lap `n`. */
  function FindStart(table: seq<LapStart>, n: int): (r: Option<real>)
    ensures r.None? <==> forall k :: 0 <= k < |table| ==> table[k].lapNumber != n
    ensures r.Some? ==> exists k :: 0 <= k < |table| && table[k].lapNumber == n && r.value == table[k].videoTime
  {
    if table == [] then None
    else if table[0].lapNumber == n then Some(table[0].videoTime)
    else
      var r := FindStart(table[1..], n);
      assert forall k :: 1 <= k < |table| ==> table[k] == table[1..][k - 1];
      r
  }

  /** On a well-formed table lap `n` is found exactly when it is in range, at entry n-1. */
  lemma FindStartWellFormed(table: seq<LapStart>, n: int)
    requires WellFormed(table)
    ensures 1 <= n <= |table| ==> FindStart(table, n) == Some(table[n - 1].videoTime)
    ensures !(1 <= n <= |table|) ==> FindStart(table, n) == None
  {
  }

  /** `find(...)?.videoTime || 0`. */
  function StartOrZero(table: seq<LapStart>, n: int): real
  {
    match FindStart(table, n)
    case None => 0.0
    case Some(v) => v
  }

  /**
   * How far through lap `lapNumber` the video time `t` is, clamped to [0, 1];
   * 0 when the lap is missing or its duration is not positive. `lapTimes`
   * are the main laps' durations, as parseTime reads them.
   */
  function Progress(lapTimes: seq<real>, table: seq<LapStart>, lapNumber: int, t: real): (p: real)
    ensures 0.0 <= p <= 1.0
  {
    var i := lapNumber - 1;
    if !(0 <= i < |lapTimes|) then 0.0
    else
      var d := lapTimes[i];
      if d > 0.0 then Clamp01((t - StartOrZero(table, lapNumber)) / d) else 0.0
  }

  /** The fractional lap index of the playhead at video time `t`. */
  function PlayheadIndex(lapTimes: seq<real>, table: seq<LapStart>, t: real): real
  {
    var n := LapNumberAt(table, t);
    (n - 1) as real + Progress(lapTimes, table, n, t)
  }

  /** The playhead stands between the lap under `t` and the next one. */
  lemma PlayheadInLap(lapTimes: seq<real>, table: seq<LapStart>, t: real)
    ensures var n := LapNumberAt(table, t);
      (n - 1) as real <= PlayheadIndex(lapTimes, table, t) <= n as real
  {
  }

  /** Inside a lap the playhead progress is the fraction of the lap already played. */
  lemma PlayheadFraction(lapTimes: seq<real>, table: seq<LapStart>, t: real, n: int, start: real, d: real)
    requires WellFormed(table) && n == LapNumberAt(table, t) && 1 <= n <= |table|
    requires n <= |lapTimes| && d == lapTimes[n - 1] && d > 0.0
    requires start == table[n - 1].videoTime && start <= t < start + d
    ensures PlayheadIndex(lapTimes, table, t) == (n - 1) as real + (t - start) / d
  {
    ProgressInLap(lapTimes, table, t, n, start, d);
  }

  /** Inside lap `n` the progress is the fraction of the lap already played. */
  lemma ProgressInLap(lapTimes: seq<real>, table: seq<LapStart>, t: real, n: int, start: real, d: real)
    requires WellFormed(table) && 1 <= n <= |table|
    requires n <= |lapTimes| && d == lapTimes[n - 1] && d > 0.0
    requires start == table[n - 1].videoTime && start <= t < start + d
    ensures Progress(lapTimes, table, n, t) == (t - start) / d
  {
    FindStartWellFormed(table, n);
    assert StartOrZero(table, n) == start;
    DivBelowOne(t - start, d);
  }

  // ----- click to seek -----

  /**
   * The fractional lap index under a click at `x`; None outside the plot
   * area, and None on a plot of width 0, where 0/0 gives no index.
   */
  function ClickIndex(f: Frame, x: real): Option<real>
  {
    var rel := x - Padding;
    if rel < 0.0 || rel > ChartWidth(f) || Step(f) == 0.0 then None
    else Some(rel / Step(f))
  }

  /**
   * The video time a click at `x` seeks to: the start of the lap under the
   * click plus that lap's duration times the fraction of the lap clicked;
   * None outside the plot or past the laps of the session.
   */
  function ClickTarget(f: Frame, lapTimes: seq<real>, table: seq<LapStart>, x: real): Option<real>
  {
    match ClickIndex(f, x)
    case None => None
    case Some(e) => IndexTarget(lapTimes, table, e)
  }

  /** The video time at fractional lap index `e`; None past the laps of the session. */
  function IndexTarget(lapTimes: seq<real>, table: seq<LapStart>, e: real): Option<real>
  {
    var i := MathFloor(e);
    if i < 0 || i >= |lapTimes| then None
    else Some(StartOrZero(table, i + 1) + lapTimes[i] * (e - i as real))
  }

  /** A click target lies within the lap clicked: from its start up to, not including, its end. */
  lemma ClickWithinLap(f: Frame, lapTimes: seq<real>, table: seq<LapStart>, x: real, e: real, i: int)
    requires ClickIndex(f, x) == Some(e) && i == MathFloor(e) && 0 <= i < |lapTimes|
    requires lapTimes[i] > 0.0
    ensures ClickTarget(f, lapTimes, table, x).Some?
    ensures StartOrZero(table, i + 1) <= ClickTarget(f, lapTimes, table, x).value < StartOrZero(table, i + 1) + lapTimes[i]
  {
    ClickTargetOf(f, lapTimes, table, x, e, i);
    SeekWithin(StartOrZero(table, i + 1), lapTimes[i], e - i as real, ClickTarget(f, lapTimes, table, x).value);
  }

  /** The target of a click whose index is `e`, in lap `i`. */
  lemma ClickTargetOf(f: Frame, lapTimes: seq<real>, table: seq<LapStart>, x: real, e: real, i: int)
    requires ClickIndex(f, x) == Some(e) && i == MathFloor(e) && 0 <= i < |lapTimes|
    ensures ClickTarget(f, lapTimes, table, x).Some?
    ensures ClickTarget(f, lapTimes, table, x).value == StartOrZero(table, i + 1) + lapTimes[i] * (e - i as real)
  {
    assert ClickTarget(f, lapTimes, table, x) == IndexTarget(lapTimes, table, e);
  }

  /** Seeking a fraction below 1 into a lap of positive duration stays inside the lap. */
  lemma SeekWithin(start: real, d: real, p: real, target: real)
    requires d > 0.0 && 0.0 <= p < 1.0 && target == start + d * p
    ensures start <= target < start + d
  {
    MulBelow(d, p);
  }

  /** A click inverts the horizontal mapping: clicking where index `e` is drawn gives `e` back. */
  lemma ClickInvertsX(f: Frame, e: real)
    requires Step(f) > 0.0 && 0.0 <= e && Step(f) * e <= ChartWidth(f)
    ensures ClickIndex(f, X(f, e)) == Some(e)
  {
    var s := Step(f);
    assert X(f, e) - Padding == s * e;
    MulBelow(s, 0.0);
    MulMono(s, 0.0, e);
    MulCancel(s, e);
  }

  /** The whole part of a lap index plus a fraction below 1 is the lap index. */
  lemma FloorOfLapIndex(i: int, q: real)
    requires 0.0 <= q < 1.0
    ensures MathFloor(i as real + q) == i
  {
  }

  /**
   * Clicking on the playhead seeks to the time it shows: when `t` lies in
   * lap `n`, of positive duration, a click at the x of the playhead's index
   * `e` (see PlayheadFraction) seeks to `t`.
   */
  lemma ClickOnPlayhead(f: Frame, lapTimes: seq<real>, table: seq<LapStart>, t: real, n: int, start: real, d: real, e: real)
    requires WellFormed(table) && 1 <= n <= |table|
    requires n <= |lapTimes| && d == lapTimes[n - 1] && d > 0.0
    requires start == table[n - 1].videoTime && start <= t < start + d
    requires e == (n - 1) as real + (t - start) / d
    requires Step(f) > 0.0 && Step(f) * e <= ChartWidth(f)
    ensures ClickTarget(f, lapTimes, table, X(f, e)) == Some(t)
  {
    FindStartWellFormed(table, n);
    var q := e - (n - 1) as real;
    FractionOfLap(start, t, d, q);
    ClickInvertsX(f, e);
    FloorOfLapIndex(n - 1, q);
    ClickTargetOf(f, lapTimes, table, X(f, e), e, n - 1);
    assert ClickTarget(f, lapTimes, table, X(f, e)).value == t;
  }

  /** The fraction of a lap played, and the time it stands for. */
  lemma FractionOfLap(start: real, t: real, d: real, q: real)
    requires d > 0.0 && start <= t < start + d && q == (t - start) / d
    ensures 0.0 <= q < 1.0 && start + d * q == t
  {
    DivBelowOne(t - start, d);
    DivCancel(t - start, d);
  }

  // ----- hovering -----

  /** A drawn point and what the tooltip shows for it. */
  datatype ChartPoint = ChartPoint(x: real, y: real, lapNumber: Json, isComparison: bool, sessionIndex: int)

  /** The squared distance from the pointer to a point (the source compares square roots; the order is the same). */
  function SquaredDistance(p: ChartPoint, x: real, y: real): real
  {
    (x - p.x) * (x - p.x) + (y - p.y) * (y - p.y)
  }

  /** Point `i` is the one the tooltip picks: within reach, nearest, and first among equals. */
  predicate IsHit(points: seq<ChartPoint>, x: real, y: real, i: int)
  {
    0 <= i < |points|
    && SquaredDistance(points[i], x, y) < HitRadiusSquared
    && (forall j :: 0 <= j < |points| ==> SquaredDistance(points[i], x, y) <= SquaredDistance(points[j], x, y))
    && (forall j :: 0 <= j < i ==> SquaredDistance(points[i], x, y) < SquaredDistance(points[j], x, y))
  }

  /** handleTooltipInteraction's scan for the closest point within 15 pixels. */
  method ClosestPoint(points: seq<ChartPoint>, x: real, y: real) returns (closest: Option<nat>)
    ensures closest.Some? ==> IsHit(points, x, y, closest.value)
    ensures closest.None? ==> forall j :: 0 <= j < |points| ==> SquaredDistance(points[j], x, y) >= HitRadiusSquared
  {
    closest := None;
    var minDistance: Option<real> := None;
    for i := 0 to |points|
      invariant closest.None? <==> minDistance.None?
      invariant closest.None? ==> forall j :: 0 <= j < i ==> SquaredDistance(points[j], x, y) >= HitRadiusSquared
      invariant closest.Some? ==>
        var c := closest.value;
        c < i && minDistance.value == SquaredDistance(points[c], x, y)
        && minDistance.value < HitRadiusSquared
        && (forall j :: 0 <= j < i ==> minDistance.value <= SquaredDistance(points[j], x, y))
        && (forall j :: 0 <= j < c ==> minDistance.value < SquaredDistance(points[j], x, y))
    {
      var d := SquaredDistance(points[i], x, y);
      if d < HitRadiusSquared && (minDistance.None? || d < minDistance.value) {
        minDistance := Some(d);
        closest := Some(i);
      }
    }
  }

  /** The points of one list: one per lap, at its index and time. */
  function LinePoints(f: Frame, laps: seq<LapEntry>, isComparison: bool, sessionIndex: int): (r: seq<ChartPoint>)
    ensures |r| == |laps|
    ensures forall k :: 0 <= k < |r| ==>
      r[k].x == X(f, k as real) && r[k].y == Y(f, Duration(laps[k]))
      && r[k].isComparison == isComparison && r[k].sessionIndex == sessionIndex
  {
    seq(|laps|, i requires 0 <= i < |laps| =>
      ChartPoint(X(f, i as real), Y(f, Duration(laps[i])), if laps[i].LapObject? then laps[i].lap else JNull,
                 isComparison, sessionIndex))
  }

  /** The comparison lists' points in order, each tagged with its list's position. */
  function ComparePoints(f: Frame, compareLaps: seq<seq<LapEntry>>, from: int): seq<ChartPoint>
    decreases |compareLaps|
  {
    if compareLaps == [] then []
    else LinePoints(f, compareLaps[0], true, from) + ComparePoints(f, compareLaps[1..], from + 1)
  }

  /**
   * `chartPoints` after a drawing: the comparison lists first, then the
   * main list, drawn twice (once more to put it on top).
   */
  function ChartPoints(f: Frame, mainLaps: seq<LapEntry>, compareLaps: seq<seq<LapEntry>>): seq<ChartPoint>
  {
    var main := LinePoints(f, mainLaps, false, -1);
    ComparePoints(f, compareLaps, 0) + main + main
  }

  /** The second copy of the main points never wins: the same point comes earlier in the first copy. */
  lemma SecondCopyNotHit(f: Frame, mainLaps: seq<LapEntry>, compareLaps: seq<seq<LapEntry>>, x: real, y: real, i: int)
    requires |ComparePoints(f, compareLaps, 0)| + |mainLaps| <= i < |ChartPoints(f, mainLaps, compareLaps)|
    ensures !IsHit(ChartPoints(f, mainLaps, compareLaps), x, y, i)
  {
    var points := ChartPoints(f, mainLaps, compareLaps);
    var m := |mainLaps|;
    assert points[i] == points[i - m];
  }
}
