/**
 * The sample store of `PlotterApp`: three circular arrays of `MaxPoints`
 * slots (relative time, pressure, temperature), the write counter, the
 * last real values, and the redraw flag; `receive_data` stores a parsed
 * reading, and the `update_plots` timer fills silent gaps with copies of
 * the last values, one per interval, and redraws when something changed.
 *
 * Clock readings are parameters in integer milliseconds; the relative
 * times stored are milliseconds since the first real sample.
 */
module Plotter {
  import opened Wrappers
  import opened Ring
  import LineProtocol
  import Labels
  import Clock

  /** The expected spacing of the samples, in milliseconds (`DATA_COLLECTION_INTERVAL_MS`). */
  const IntervalMs: nat := 100

  /** One stored sample: time since the first real sample, pressure, temperature. */
  datatype Point = Point(t: int, p: real, temp: real)

  function Times(h: seq<Point>): seq<int> {
    seq(|h|, i requires 0 <= i < |h| => h[i].t)
  }

  function Pressures(h: seq<Point>): seq<real> {
    seq(|h|, i requires 0 <= i < |h| => h[i].p)
  }

  function Temperatures(h: seq<Point>): seq<real> {
    seq(|h|, i requires 0 <= i < |h| => h[i].temp)
  }

  ghost predicate NonDecreasing(xs: seq<int>) {
    forall i, j :: 0 <= i <= j < |xs| ==> xs[i] <= xs[j]
  }

  /**
   * The number of filler points the timer adds when the last sample is at
   * `last` and the clock reads `now`: the whole intervals that have gone by.
   */
  function FillCount(last: int, now: int): (c: nat)
    ensures c > 0 ==> last + c * IntervalMs <= now
    ensures now < last + (c + 1) * IntervalMs
  {
    if now < last + IntervalMs then 0 else (now - last) / IntervalMs
  }

  /** The two conditions on `FillCount` pin it down: any count meeting them is it. */
  lemma FillCountUnique(last: int, now: int, c: nat)
    requires c > 0 ==> last + c * IntervalMs <= now
    requires now < last + (c + 1) * IntervalMs
    ensures FillCount(last, now) == c
  {
  }

  /** The relative time of the `k`-th filler point (from 0) after a last point at relative time `last`. */
  function GapTime(last: int, k: int): int {
    last + (k + 1) * IntervalMs
  }

  /** A redrawn frame: the three plotted series and the x-axis limits. */
  datatype Frame = Frame(xs: seq<int>, ps: seq<real>, ts: seq<real>, xmin: int, xmax: int)

  /**
   * The x-axis limits: the left edge on the oldest shown time, the right
   * edge two intervals past the newest, so that in time order every shown
   * point lies inside the window.
   */
  function XLimits(xs: seq<int>): (r: (int, int))
    requires xs != []
    ensures r.1 - r.0 == xs[|xs| - 1] - xs[0] + 2 * IntervalMs
    ensures NonDecreasing(xs) ==>
      forall i :: 0 <= i < |xs| ==> r.0 <= xs[i] && xs[i] + 2 * IntervalMs <= r.1
  {
    (xs[0], xs[|xs| - 1] + 2 * IntervalMs)
  }

  /**
   * The frame that shows a history: the newest `min(|h|, MaxPoints)` points
   * as three series, the x-axis from the oldest of them to two intervals
   * past the newest.
   */
  ghost function FrameOf(h: seq<Point>): Frame
    requires h != []
  {
    var shown := LastN(h);
    Frame(Times(shown), Pressures(shown), Temperatures(shown),
          shown[0].t, shown[|shown| - 1].t + 2 * IntervalMs)
  }

  /** Appending a point no earlier than the last keeps a history in time order. */
  lemma AppendInOrder(h: seq<Point>, x: Point)
    requires NonDecreasing(Times(h))
    requires h != [] ==> h[|h| - 1].t <= x.t
    ensures NonDecreasing(Times(h + [x]))
  {
    var ts, ts' := Times(h), Times(h + [x]);
    forall i, j | 0 <= i <= j < |ts'|
      ensures ts'[i] <= ts'[j]
    {
      if j < |h| {
        assert ts'[i] == ts[i] && ts'[j] == ts[j];
      } else if i < j {
        assert ts'[i] == ts[i] <= ts[|h| - 1] && ts'[j] == x.t;
      }
    }
  }

  /** Filler points, one interval apart after the last point, keep a history in time order. */
  lemma {:induction false} GapsInOrder(h: seq<Point>, e: seq<Point>)
    requires h != [] && NonDecreasing(Times(h))
    requires forall i :: 0 <= i < |e| ==> e[i].t == GapTime(h[|h| - 1].t, i)
    ensures NonDecreasing(Times(h + e))
  {
    if e != [] {
      var e' := e[..|e| - 1];
      GapsInOrder(h, e');
      var h' := h + e';
      assert h + e == h' + [e[|e| - 1]];
      if e' != [] {
        assert h'[|h'| - 1] == e'[|e'| - 1];
      }
      AppendInOrder(h', e[|e| - 1]);
    } else {
      assert h + e == h;
    }
  }

  /** Three and a half intervals of silence bring three filler points. */
  lemma FillCountExample()
    ensures FillCount(1000, 1350) == 3
  {
  }

  /** In time order, every point of a frame lies inside its x-axis window. */
  lemma FrameWindow(h: seq<Point>)
    requires h != [] && NonDecreasing(Times(h))
    ensures var f := FrameOf(h);
      forall i :: 0 <= i < |f.xs| ==> f.xmin <= f.xs[i] && f.xs[i] + 2 * IntervalMs <= f.xmax
  {
    NewestSeries(h);
    var xs := LastN(Times(h));
    assert NonDecreasing(xs);
    var r := XLimits(xs);
  }

  /** Taking the newest samples commutes with projecting out one series. */
  lemma NewestSeries(h: seq<Point>)
    ensures LastN(Times(h)) == Times(LastN(h))
    ensures LastN(Pressures(h)) == Pressures(LastN(h))
    ensures LastN(Temperatures(h)) == Temperatures(LastN(h))
  {
  }

  class PlotterApp {
    var startTime: int
    var firstDataTime: Option<int>
    const xData: array<int>
    const y1Data: array<real>
    const y2Data: array<real>
    var dataIndex: nat
    var lastP: Option<real>
    var lastT: Option<real>
    var lastUpdateTime: Option<int>
    var plotDirty: bool
    /** Every point ever written to the buffer, oldest first. */
    ghost var history: seq<Point>

    /** The buffer part of the invariant: each series holds the newest points of the history. */
    ghost predicate Buffered()
      reads this`history, this`dataIndex, xData, y1Data, y2Data
    {
      && y1Data != y2Data
      && Holds(xData[..], Times(history))
      && Holds(y1Data[..], Pressures(history))
      && Holds(y2Data[..], Temperatures(history))
      && dataIndex == |history|
    }

    /** The last-value part of the invariant: the filler state agrees with the newest point. */
    ghost predicate Tracked()
      reads this`history, this`firstDataTime, this`lastP, this`lastT, this`lastUpdateTime
    {
      && (firstDataTime.None? <==> history == [])
      && (lastP.None? <==> history == [])
      && (lastT.None? <==> history == [])
      && (lastUpdateTime.None? <==> history == [])
      && (history != [] ==>
            && history[0].t == 0
            && lastP == Some(history[|history| - 1].p)
            && lastT == Some(history[|history| - 1].temp)
            && lastUpdateTime == Some(firstDataTime.value + history[|history| - 1].t))
    }

    ghost predicate Valid()
      reads this, xData, y1Data, y2Data
    {
      Buffered() && Tracked() && (plotDirty ==> history != [])
    }

    constructor(startMs: int)
      ensures Valid()
      ensures startTime == startMs && history == [] && !plotDirty
      ensures forall i :: 0 <= i < MaxPoints ==> xData[i] == 0 && y1Data[i] == 0.0 && y2Data[i] == 0.0
    {
      startTime := startMs;
      firstDataTime := None;
      xData := new int[MaxPoints](_ => 0);
      y1Data := new real[MaxPoints](_ => 0.0);
      y2Data := new real[MaxPoints](_ => 0.0);
      dataIndex := 0;
      lastP := None;
      lastT := None;
      lastUpdateTime := None;
      plotDirty := false;
      history := [];
    }

    /** Write one point into slot `dataIndex % MaxPoints` of the three series and count it. */
    method Append(pt: Point)
      requires Buffered()
      modifies this, xData, y1Data, y2Data
      ensures Buffered()
      ensures history == old(history) + [pt]
      ensures xData[..] == old(xData[..])[old(dataIndex) % MaxPoints := pt.t]
      ensures y1Data[..] == old(y1Data[..])[old(dataIndex) % MaxPoints := pt.p]
      ensures y2Data[..] == old(y2Data[..])[old(dataIndex) % MaxPoints := pt.temp]
      ensures startTime == old(startTime) && firstDataTime == old(firstDataTime)
      ensures lastP == old(lastP) && lastT == old(lastT)
      ensures lastUpdateTime == old(lastUpdateTime) && plotDirty == old(plotDirty)
    {
      var idx := dataIndex % MaxPoints;
      HoldsAfterWrite(xData[..], Times(history), pt.t);
      HoldsAfterWrite(y1Data[..], Pressures(history), pt.p);
      HoldsAfterWrite(y2Data[..], Temperatures(history), pt.temp);
      assert Times(history + [pt]) == Times(history) + [pt.t];
      assert Pressures(history + [pt]) == Pressures(history) + [pt.p];
      assert Temperatures(history + [pt]) == Temperatures(history) + [pt.temp];
      xData[idx] := pt.t;
      y1Data[idx] := pt.p;
      y2Data[idx] := pt.temp;
      dataIndex := dataIndex + 1;
      history := history + [pt];
    }

    /**
     * Store a parsed reading received at `nowMs`. The first reading fixes
     * the time origin; the label styles chosen for the reading are returned.
     */
    method ReceiveData(data: LineProtocol.Reading, nowMs: int) returns (styles: Labels.Styles)
      requires Valid()
      modifies this, xData, y1Data, y2Data
      ensures Valid()
      ensures styles == Labels.LabelStyles(data.esd, data.estado)
      ensures firstDataTime == if old(firstDataTime).None? then Some(nowMs) else old(firstDataTime)
      ensures history == old(history) + [Point(nowMs - firstDataTime.value, data.p, data.t)]
      ensures old(history) == [] ==> history == [Point(0, data.p, data.t)]
      ensures xData[..] == old(xData[..])[old(dataIndex) % MaxPoints := nowMs - firstDataTime.value]
      ensures y1Data[..] == old(y1Data[..])[old(dataIndex) % MaxPoints := data.p]
      ensures y2Data[..] == old(y2Data[..])[old(dataIndex) % MaxPoints := data.t]
      ensures dataIndex == old(dataIndex) + 1
      ensures lastP == Some(data.p) && lastT == Some(data.t) && lastUpdateTime == Some(nowMs)
      ensures plotDirty && startTime == old(startTime)
    {
      if firstDataTime.None? {
        firstDataTime := Some(nowMs);
      }
      var graphT := nowMs - firstDataTime.value;
      Append(Point(graphT, data.p, data.t));
      lastP := Some(data.p);
      lastT := Some(data.t);
      lastUpdateTime := Some(nowMs);
      plotDirty := true;
      // `update_labels_immediate` runs first in `receive_data`; it touches none of the state above.
      styles := Labels.LabelStyles(data.esd, data.estado);
    }

    /**
     * The gap filler of the redraw timer: while a whole interval has passed
     * since the last stored point, store a copy of the last values one
     * interval later. Does nothing before the first real sample. Reports
     * whether it stored anything.
     */
    method SynthesizeGaps(nowMs: int) returns (added: bool)
      requires Valid()
      modifies this, xData, y1Data, y2Data
      ensures Valid()
      ensures old(firstDataTime).None? ==> history == old(history) && lastUpdateTime == old(lastUpdateTime)
      ensures |old(history)| <= |history| && history[..|old(history)|] == old(history)
      ensures old(firstDataTime).Some? ==>
        && |history| == |old(history)| + FillCount(old(lastUpdateTime).value, nowMs)
        && lastUpdateTime.value == old(lastUpdateTime).value + (|history| - |old(history)|) * IntervalMs
        && nowMs < lastUpdateTime.value + IntervalMs
        && forall i :: |old(history)| <= i < |history| ==>
             history[i] == Point(GapTime(old(lastUpdateTime).value - firstDataTime.value, i - |old(history)|),
                                 lastP.value, lastT.value)
      ensures added <==> |history| > |old(history)|
      ensures startTime == old(startTime) && firstDataTime == old(firstDataTime)
      ensures lastP == old(lastP) && lastT == old(lastT) && plotDirty == old(plotDirty)
    {
      added := false;
      if firstDataTime.Some? && lastUpdateTime.Some? && lastP.Some? {
        var expectedNext := lastUpdateTime.value + IntervalMs;
        while expectedNext <= nowMs
          invariant Buffered()
          invariant startTime == old(startTime) && firstDataTime == old(firstDataTime)
          invariant lastP == old(lastP) && lastT == old(lastT) && plotDirty == old(plotDirty)
          invariant lastUpdateTime.Some? && expectedNext == lastUpdateTime.value + IntervalMs
          invariant |old(history)| <= |history| && history[..|old(history)|] == old(history)
          invariant lastUpdateTime.value == old(lastUpdateTime).value + (|history| - |old(history)|) * IntervalMs
          invariant |history| > |old(history)| ==> lastUpdateTime.value <= nowMs
          invariant forall i :: |old(history)| <= i < |history| ==>
            history[i] == Point(GapTime(old(lastUpdateTime).value - firstDataTime.value, i - |old(history)|),
                                lastP.value, lastT.value)
          invariant history != [] && history[0].t == 0
          invariant lastP == Some(history[|history| - 1].p) && lastT == Some(history[|history| - 1].temp)
          invariant lastUpdateTime.value == firstDataTime.value + history[|history| - 1].t
          invariant added <==> |history| > |old(history)|
          decreases nowMs - expectedNext
        {
          var graphT := expectedNext - firstDataTime.value;
          var pt := Point(graphT, lastP.value, lastT.value);
          Append(pt);
          lastUpdateTime := Some(expectedNext);
          added := true;
          expectedNext := expectedNext + IntervalMs;
        }
        FillCountUnique(old(lastUpdateTime).value, nowMs, |history| - |old(history)|);
      }
    }

    /**
     * The frame a redraw shows: the three series read out of the buffer in
     * time order (the prefix before the buffer wraps, the rotation at the
     * write position after), and the x-axis limits around them.
     */
    method Snapshot() returns (f: Frame)
      requires Buffered() && history != []
      ensures f == FrameOf(history)
    {
      var xs := Chrono(xData[..], dataIndex);
      var ps := Chrono(y1Data[..], dataIndex);
      var ts := Chrono(y2Data[..], dataIndex);
      ChronoIsNewest(xData[..], Times(history));
      ChronoIsNewest(y1Data[..], Pressures(history));
      ChronoIsNewest(y2Data[..], Temperatures(history));
      NewestSeries(history);
      var limits := XLimits(xs);
      f := Frame(xs, ps, ts, limits.0, limits.1);
    }

    /**
     * The drawing half of the redraw timer: when a real sample arrived
     * since the last redraw or the gap filler stored points, a frame of the
     * newest `min(dataIndex, MaxPoints)` points in time order, after which
     * the dirty flag is cleared; otherwise nothing.
     */
    method Redraw(added: bool) returns (frame: Option<Frame>)
      requires Valid() && (added ==> history != [])
      modifies this`plotDirty
      ensures Valid()
      ensures frame.Some? <==> old(plotDirty) || added
      ensures !plotDirty
      ensures frame.Some? ==> history != [] && frame.value == FrameOf(history)
    {
      frame := None;
      if plotDirty || added {
        var nPoints := if dataIndex < MaxPoints then dataIndex else MaxPoints;
        assert nPoints > 0;
        var f := Snapshot();
        frame := Some(f);
        plotDirty := false;
      }
    }

    /**
     * The redraw timer: the elapsed-time label text, the gap filler, then
     * the redraw; the dirty flag is cleared only by a redraw.
     */
    method UpdatePlots(nowMs: int) returns (timeText: string, frame: Option<Frame>)
      requires Valid()
      modifies this, xData, y1Data, y2Data
      ensures Valid()
      ensures timeText == Clock.ElapsedLabel(startTime, nowMs)
      ensures |old(history)| <= |history| && history[..|old(history)|] == old(history)
      ensures old(firstDataTime).None? ==> history == old(history) && lastUpdateTime == old(lastUpdateTime)
      ensures old(firstDataTime).Some? ==>
        && |history| == |old(history)| + FillCount(old(lastUpdateTime).value, nowMs)
        && lastUpdateTime.value == old(lastUpdateTime).value + (|history| - |old(history)|) * IntervalMs
        && nowMs < lastUpdateTime.value + IntervalMs
        && forall i :: |old(history)| <= i < |history| ==>
             history[i] == Point(GapTime(old(lastUpdateTime).value - firstDataTime.value, i - |old(history)|),
                                 lastP.value, lastT.value)
      ensures frame.Some? <==> old(plotDirty) || |history| > |old(history)|
      ensures !plotDirty
      ensures frame.Some? ==> history != [] && frame.value == FrameOf(history)
      ensures startTime == old(startTime) && firstDataTime == old(firstDataTime)
      ensures lastP == old(lastP) && lastT == old(lastT)
    {
      timeText := Clock.ElapsedLabel(startTime, nowMs);
      var added := SynthesizeGaps(nowMs);
      ghost var filled := history;
      frame := Redraw(added);
      assert history == filled;
    }
  }
}
