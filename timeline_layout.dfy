/** The shared time axis of the viewer: minimum and maximum over every loaded
    timestamp, the linear map to a percentage, and the five axis labels. */
module TimelineLayout {

  /** The time range every marker is placed against (milliseconds). */
  datatype Axis = Axis(minTime: int, maxTime: int)

  function Duration(a: Axis): int {
    a.maxTime - a.minTime
  }

  /** `Math.min(...times)` over a non-empty list. */
  function MinOf(ts: seq<int>): (m: int)
    requires |ts| > 0
    ensures m in ts
    ensures forall i :: 0 <= i < |ts| ==> m <= ts[i]
  {
    if |ts| == 1 then ts[0]
    else
      var rest := MinOf(ts[1..]);
      if ts[0] <= rest then ts[0] else rest
  }

  /** `Math.max(...times)` over a non-empty list. */
  function MaxOf(ts: seq<int>): (m: int)
    requires |ts| > 0
    ensures m in ts
    ensures forall i :: 0 <= i < |ts| ==> ts[i] <= m
  {
    if |ts| == 1 then ts[0]
    else
      var rest := MaxOf(ts[1..]);
      if ts[0] >= rest then ts[0] else rest
  }

  /** The axis of a non-empty list of times: it covers every one of them and
      both ends are attained. */
  function AxisOf(ts: seq<int>): (a: Axis)
    requires |ts| > 0
    ensures a.minTime in ts && a.maxTime in ts
    ensures forall i :: 0 <= i < |ts| ==> a.minTime <= ts[i] <= a.maxTime
    ensures Duration(a) >= 0
  {
    Axis(MinOf(ts), MaxOf(ts))
  }

  /** A CSS `left` percentage, or the NaN/Infinity JavaScript produces when
      the duration is 0. */
  datatype Position = Percent(value: real) | NotFinite

  /** `xPos(t) = ((t - minTime) / duration) * 100`. */
  function XPos(a: Axis, t: real): (p: Position)
    ensures p.NotFinite? <==> Duration(a) == 0
    ensures p.Percent? ==> p.value * Duration(a) as real == (t - a.minTime as real) * 100.0
  {
    if Duration(a) == 0 then NotFinite
    else
      var d := Duration(a) as real;
      var q := (t - a.minTime as real) / d;
      assert q * d == t - a.minTime as real;
      assert (q * 100.0) * d == (q * d) * 100.0;
      Percent(q * 100.0)
  }

  /** The ends of a non-degenerate axis map to 0% and 100%. */
  lemma XPosEnds(a: Axis)
    requires Duration(a) > 0
    ensures XPos(a, a.minTime as real) == Percent(0.0)
    ensures XPos(a, a.maxTime as real) == Percent(100.0)
  {
    var d := Duration(a) as real;
    assert (a.minTime as real - a.minTime as real) / d == 0.0;
    assert (a.maxTime as real - a.minTime as real) / d == 1.0;
  }

  /** On a non-degenerate axis `xPos` is monotone. */
  lemma XPosMonotone(a: Axis, t1: real, t2: real)
    requires Duration(a) > 0 && t1 <= t2
    ensures XPos(a, t1).value <= XPos(a, t2).value
  {
    var d := Duration(a) as real;
    assert XPos(a, t2).value - XPos(a, t1).value == (t2 - t1) / d * 100.0;
    assert (t2 - t1) / d >= 0.0;
  }

  /** A time inside the axis maps into [0, 100]. */
  lemma XPosInRange(a: Axis, t: real)
    requires Duration(a) > 0
    requires a.minTime as real <= t <= a.maxTime as real
    ensures 0.0 <= XPos(a, t).value <= 100.0
  {
    XPosEnds(a);
    XPosMonotone(a, a.minTime as real, t);
    XPosMonotone(a, t, a.maxTime as real);
  }

  const LabelCount: nat := 5

  /** `Array.from({length: 5}, (_, i) => minTime + i * step)` with
      `step = (maxTime - minTime) / 4`. */
  function LabelTimes(a: Axis): (ts: seq<real>)
    ensures |ts| == LabelCount
    ensures ts[0] == a.minTime as real && ts[LabelCount - 1] == a.maxTime as real
    ensures forall i :: 0 <= i < LabelCount - 1 ==> ts[i + 1] - ts[i] == Duration(a) as real / 4.0
  {
    var step := (a.maxTime - a.minTime) as real / (LabelCount - 1) as real;
    seq(LabelCount, i => a.minTime as real + i as real * step)
  }

  /** One axis label: its time and its `left` position. */
  datatype Label = Label(time: real, left: Position)

  function Labels(a: Axis): (ls: seq<Label>)
    ensures |ls| == LabelCount
    ensures forall i :: 0 <= i < LabelCount ==> ls[i].time == LabelTimes(a)[i]
  {
    var ts := LabelTimes(a);
    seq(LabelCount, i requires 0 <= i < LabelCount => Label(ts[i], XPos(a, ts[i])))
  }

  /** On a non-degenerate axis the five labels sit at 0, 25, 50, 75 and 100%;
      on a degenerate one none has a finite position. */
  lemma LabelPositions(a: Axis)
    ensures Duration(a) > 0 ==>
      forall i :: 0 <= i < LabelCount ==> Labels(a)[i].left == Percent(25.0 * i as real)
    ensures Duration(a) == 0 ==>
      forall i :: 0 <= i < LabelCount ==> Labels(a)[i].left == NotFinite
  {
    if Duration(a) > 0 {
      var d := Duration(a) as real;
      forall i | 0 <= i < LabelCount
        ensures Labels(a)[i].left == Percent(25.0 * i as real)
      {
        var t := LabelTimes(a)[i];
        assert t - a.minTime as real == i as real * (d / 4.0);
        assert (i as real * (d / 4.0)) / d == i as real / 4.0;
      }
    }
  }
}
