/** The syringe conversions of the profile converter as functions on exact reals: volume and
    flow against piston position and velocity (scaled by the section area, in mm^2, with the
    factor 1000 between mm^3 and ml), left-rectangle integration of a sampled flow, running
    sums, and finite differences. */
module Flow {
  import opened Outcomes

  /** `Math.PI` as the decimal literal the runtime rounds to a double. */
  const Pi: real := 3.141592653589793

  /** The area of a circle of diameter `d`: (d/2)^2 * pi. */
  function CircleArea(d: real): real
  {
    (d / 2.0) * (d / 2.0) * Pi
  }

  // ---- per-sample scalings ----

  /** Flows (ml/s) to velocities (mm/s), or volumes (ml) to positions (mm): each sample times
      1000 divided by the area. */
  function ToLinear(s: seq<real>, area: real): (r: seq<real>)
    requires area != 0.0
    ensures |r| == |s|
  {
    seq(|s|, i requires 0 <= i < |s| => s[i] * 1000.0 / area)
  }

  /** Velocities (mm/s) to flows (ml/s), or positions (mm) to volumes (ml): each sample times the
      area divided by 1000. */
  function ToVolumetric(s: seq<real>, area: real): (r: seq<real>)
    ensures |r| == |s|
  {
    seq(|s|, i requires 0 <= i < |s| => s[i] * area / 1000.0)
  }

  /** Scaling one more sample appends its scaled value. */
  lemma ToLinearSnoc(s: seq<real>, i: int, area: real)
    requires area != 0.0 && 0 <= i < |s|
    ensures ToLinear(s[..i + 1], area) == ToLinear(s[..i], area) + [s[i] * 1000.0 / area]
  {
    assert s[..i + 1][..i] == s[..i];
  }

  /** Scaling one more sample appends its scaled value. */
  lemma ToVolumetricSnoc(s: seq<real>, i: int, area: real)
    requires 0 <= i < |s|
    ensures ToVolumetric(s[..i + 1], area) == ToVolumetric(s[..i], area) + [s[i] * area / 1000.0]
  {
    var a, b := ToVolumetric(s[..i + 1], area), ToVolumetric(s[..i], area) + [s[i] * area / 1000.0];
    forall k | 0 <= k <= i ensures a[k] == b[k]
    {
      assert s[..i + 1][k] == s[k];
    }
  }

  /** The two scalings undo each other, in both orders. */
  lemma LinearVolumetricInverse(s: seq<real>, area: real)
    requires area != 0.0
    ensures ToLinear(ToVolumetric(s, area), area) == s
    ensures ToVolumetric(ToLinear(s, area), area) == s
  {
    var a := ToLinear(ToVolumetric(s, area), area);
    forall i | 0 <= i < |s| ensures a[i] == s[i]
    {
      assert ToVolumetric(s, area)[i] * 1000.0 == s[i] * area;
      assert a[i] * area == s[i] * area;
    }
    var b := ToVolumetric(ToLinear(s, area), area);
    forall i | 0 <= i < |s| ensures b[i] == s[i]
    {
      assert ToLinear(s, area)[i] * area == s[i] * 1000.0;
      assert b[i] * 1000.0 == s[i] * 1000.0;
    }
  }

  // ---- integration ----

  /** The left rectangles of the curve y over x: y[i] * (x[i+1] - x[i]) for every sample but the
      last. */
  function Rectangles(x: seq<real>, y: seq<real>): (r: seq<real>)
    requires |x| == |y|
  {
    if |x| == 0 then [] else seq(|x| - 1, i requires 0 <= i < |x| - 1 => y[i] * (x[i + 1] - x[i]))
  }

  /** One more sample adds one more rectangle. */
  lemma RectanglesSnoc(x: seq<real>, y: seq<real>, i: int)
    requires |x| == |y| && 0 <= i && i + 1 < |x|
    ensures Rectangles(x[..i + 2], y[..i + 2]) == Rectangles(x[..i + 1], y[..i + 1]) + [y[i] * (x[i + 1] - x[i])]
  {
    var a, b := Rectangles(x[..i + 2], y[..i + 2]), Rectangles(x[..i + 1], y[..i + 1]);
    forall k | 0 <= k < i ensures a[k] == b[k]
    {
      assert x[..i + 2][k] == x[k] && x[..i + 2][k + 1] == x[k + 1] && y[..i + 2][k] == y[k];
      assert x[..i + 1][k] == x[k] && x[..i + 1][k + 1] == x[k + 1] && y[..i + 1][k] == y[k];
    }
    assert a[i] == y[i] * (x[i + 1] - x[i]) by {
      assert x[..i + 2][i] == x[i] && x[..i + 2][i + 1] == x[i + 1] && y[..i + 2][i] == y[i];
    }
  }

  /** `Integrate`: unequal lists throw; otherwise the left rectangles. */
  function Integrated(x: seq<real>, y: seq<real>): (r: Result<seq<real>>)
    ensures r.Err? <==> |x| != |y|
    ensures r.Err? ==> r.error == LengthMismatch
  {
    if |x| != |y| then Err(LengthMismatch) else Ok(Rectangles(x, y))
  }

  /** Integration yields one rectangle fewer than there are samples (none for an empty or a
      single sample), and the last sample of y never enters any rectangle. */
  lemma IntegrateLosesLastSample(x: seq<real>, y: seq<real>, z: real)
    requires |x| == |y| > 0
    ensures |Rectangles(x, y)| == |x| - 1
    ensures Rectangles(x, y) == Rectangles(x, y[..|y| - 1] + [z])
  {
    var y' := y[..|y| - 1] + [z];
    var r, r' := Rectangles(x, y), Rectangles(x, y');
    forall i | 0 <= i < |x| - 1 ensures r[i] == r'[i]
    {
      assert y'[i] == y[i];
    }
  }

  /** The sum of a sequence, element by element from the front. */
  function Sum(s: seq<real>): real
  {
    if |s| == 0 then 0.0 else Sum(s[..|s| - 1]) + s[|s| - 1]
  }

  // ---- running sums ----

  /** The running sums of `d`: entry k is the sum of d[0..k]. */
  function RunningSums(d: seq<real>): (r: seq<real>)
    ensures |r| == |d|
    ensures |d| > 0 ==> r[0] == d[0]
    ensures forall k :: 0 < k < |d| ==> r[k] == r[k - 1] + d[k]
  {
    var r := seq(|d|, k requires 0 <= k < |d| => Sum(d[..k + 1]));
    assert |d| > 0 ==> r[0] == d[0] by {
      if |d| > 0 {
        assert d[..1][..0] == [];
        assert Sum(d[..1]) == Sum([]) + d[0];
      }
    }
    assert forall k :: 0 < k < |d| ==> r[k] == r[k - 1] + d[k] by {
      forall k | 0 < k < |d| ensures r[k] == r[k - 1] + d[k]
      {
        assert d[..k + 1][..k] == d[..k];
      }
    }
    r
  }

  /** `FlowToPosition`: unequal lists throw in the integration, and fewer than two samples
      throw when the first volume is looked up; otherwise each rectangle is turned into a
      displacement and the displacements are summed up. */
  function Positions(times: seq<real>, flows: seq<real>, area: real): (r: Result<seq<real>>)
    requires area != 0.0
    ensures r.Ok? <==> |times| == |flows| >= 2
    ensures r.Ok? ==> |r.value| == |times| - 1
    ensures r.Err? ==> r.error == if |times| != |flows| then LengthMismatch else IndexOutOfRange
  {
    match Integrated(times, flows)
    case Err(e) => Err(e)
    case Ok(volume) =>
      if |volume| == 0 then Err(IndexOutOfRange) else Ok(RunningSums(ToLinear(volume, area)))
  }

  /** Sums scale: converting each volume and then summing equals summing, then converting. */
  lemma {:induction false} SumToLinear(s: seq<real>, area: real)
    requires area != 0.0
    ensures Sum(ToLinear(s, area)) == Sum(s) * 1000.0 / area
    decreases |s|
  {
    if |s| > 0 {
      var n := |s|;
      SumToLinear(s[..n - 1], area);
      assert ToLinear(s, area)[..n - 1] == ToLinear(s[..n - 1], area);
      ScaledSum(Sum(s[..n - 1]), s[n - 1], area);
    }
  }

  /** a * 1000 / area + b * 1000 / area == (a + b) * 1000 / area. */
  lemma ScaledSum(a: real, b: real, area: real)
    requires area != 0.0
    ensures a * 1000.0 / area + b * 1000.0 / area == (a + b) * 1000.0 / area
  { }

  /** The last position of `FlowToPosition` is the whole integrated volume turned into a
      displacement. */
  lemma FinalPosition(times: seq<real>, flows: seq<real>, area: real)
    requires area != 0.0 && |times| == |flows| >= 2
    ensures var p := Positions(times, flows, area).value;
      p[|p| - 1] == Sum(Rectangles(times, flows)) * 1000.0 / area
  {
    var d := ToLinear(Rectangles(times, flows), area);
    var r := RunningSums(d);
    SumToLinear(Rectangles(times, flows), area);
    assert r[|r| - 1] == Sum(d[..|d|]);
    assert d[..|d|] == d;
  }

  /** The running sums of non-negative increments never decrease. */
  lemma {:induction false} RunningSumsNondecreasing(d: seq<real>, i: int, j: int)
    requires forall k :: 0 <= k < |d| ==> d[k] >= 0.0
    requires 0 <= i <= j < |d|
    ensures RunningSums(d)[i] <= RunningSums(d)[j]
    decreases j - i
  {
    if i < j {
      RunningSumsNondecreasing(d, i, j - 1);
    }
  }

  /** With non-negative flows, non-decreasing times and a positive area, the positions of
      `FlowToPosition` never decrease. */
  lemma FlowToPositionNondecreasing(times: seq<real>, flows: seq<real>, area: real, i: int, j: int)
    requires area > 0.0 && |times| == |flows| >= 2
    requires forall k :: 0 <= k < |flows| ==> flows[k] >= 0.0
    requires forall k :: 0 <= k < |times| - 1 ==> times[k] <= times[k + 1]
    requires 0 <= i <= j < |times| - 1
    ensures Positions(times, flows, area).value[i] <= Positions(times, flows, area).value[j]
  {
    var v := Rectangles(times, flows);
    var d := ToLinear(v, area);
    forall k | 0 <= k < |d| ensures d[k] >= 0.0
    {
      assert v[k] == flows[k] * (times[k + 1] - times[k]);
      assert v[k] >= 0.0;
      assert d[k] * area == v[k] * 1000.0;
    }
    RunningSumsNondecreasing(d, i, j);
  }

  // ---- finite differences ----

  /** No two neighbouring entries of `times` below index `n` are equal. */
  ghost predicate DistinctSteps(times: seq<real>, n: int)
  {
    forall i :: 1 <= i < n && i < |times| ==> times[i] != times[i - 1]
  }

  /** `PositionToFlow`: for each neighbouring pair of samples, the position step over the time
      step, times the area over 1000. There is no length check: `times` shorter than
      `positions` throws when the first missing time is looked up. */
  function Flows(positions: seq<real>, times: seq<real>, area: real): (r: Result<seq<real>>)
    requires DistinctSteps(times, |positions|)
    ensures r.Err? <==> 2 <= |positions| && |times| < |positions|
    ensures r.Err? ==> r.error == IndexOutOfRange
    ensures r.Ok? ==> |r.value| == if |positions| == 0 then 0 else |positions| - 1
  {
    if 2 <= |positions| && |times| < |positions| then Err(IndexOutOfRange)
    else if |positions| == 0 then Ok([])
    else Ok(seq(|positions| - 1, i requires 0 <= i < |positions| - 1 =>
              (positions[i + 1] - positions[i]) / (times[i + 1] - times[i]) * area / 1000.0))
  }

  /** Differencing one more position appends the flow between it and the one before. */
  lemma FlowsSnoc(positions: seq<real>, times: seq<real>, area: real, i: int, flow: real)
    requires 1 <= i < |positions| && i < |times| && DistinctSteps(times, |positions|)
    requires flow == (positions[i] - positions[i - 1]) / (times[i] - times[i - 1]) * area / 1000.0
    ensures DistinctSteps(times, i) && DistinctSteps(times, i + 1)
    ensures Flows(positions[..i + 1], times, area) == Ok(Flows(positions[..i], times, area).value + [flow])
  {
    var a, b := Flows(positions[..i + 1], times, area).value, Flows(positions[..i], times, area).value;
    forall k | 0 <= k < i - 1 ensures a[k] == b[k]
    {
      assert positions[..i + 1][k] == positions[k] && positions[..i + 1][k + 1] == positions[k + 1];
      assert positions[..i][k] == positions[k] && positions[..i][k + 1] == positions[k + 1];
    }
    assert a[i - 1] == flow by {
      assert positions[..i + 1][i - 1] == positions[i - 1] && positions[..i + 1][i] == positions[i];
    }
    assert a == b + [flow];
  }

  /** The flow at one index of a differenced profile. */
  lemma FlowAt(positions: seq<real>, times: seq<real>, area: real, i: int)
    requires DistinctSteps(times, |positions|) && |positions| <= |times| && 0 <= i < |positions| - 1
    ensures Flows(positions, times, area).Ok?
    ensures Flows(positions, times, area).value[i]
      == (positions[i + 1] - positions[i]) / (times[i + 1] - times[i]) * area / 1000.0
  {
  }

  /** A position step of `flows[i] * dt * 1000 / area` differences back to `flows[i]`. */
  lemma DifferenceOfStep(q: seq<real>, times: seq<real>, flows: seq<real>, area: real, i: int)
    requires area != 0.0 && DistinctSteps(times, |q|) && |q| <= |times| && 0 <= i < |q| - 1 && i < |flows|
    requires q[i + 1] - q[i] == flows[i] * (times[i + 1] - times[i]) * 1000.0 / area
    ensures Flows(q, times, area).Ok? && Flows(q, times, area).value[i] == flows[i]
  {
    FlowAt(q, times, area, i);
    StepRecoversFlow(flows[i], times[i + 1] - times[i], area, q[i + 1] - q[i], Flows(q, times, area).value[i]);
  }

  /** One step of differencing undoes one rectangle: the displacement f * dt * 1000 / area,
      divided by dt and scaled by area / 1000, is f again. */
  lemma StepRecoversFlow(f: real, dt: real, area: real, dp: real, v: real)
    requires dt != 0.0 && area != 0.0
    requires dp == f * dt * 1000.0 / area
    requires v == dp / dt * area / 1000.0
    ensures v == f
  {
    assert dp * area == f * dt * 1000.0;
    var q := dp / dt;
    assert q * dt == dp;
    assert q * dt * area == f * dt * 1000.0;
    assert q * area == f * 1000.0;
  }
  lemma PositionStep(times: seq<real>, flows: seq<real>, area: real, i: int, q: seq<real>)
    requires area != 0.0 && |times| == |flows| >= 2 && 0 <= i < |times| - 1
    requires q == [0.0] + Positions(times, flows, area).value
    ensures q[i + 1] - q[i] == flows[i] * (times[i + 1] - times[i]) * 1000.0 / area
  {
    var v := Rectangles(times, flows);
    var d := ToLinear(v, area);
    var p := RunningSums(d);
    assert Positions(times, flows, area).value == p;
    assert q[i + 1] - q[i] == d[i];
    assert v[i] == flows[i] * (times[i + 1] - times[i]);
  }
  lemma DifferenceAt(times: seq<real>, flows: seq<real>, area: real, i: int)
    requires area != 0.0 && |times| == |flows| >= 2
    requires DistinctSteps(times, |times|)
    requires 0 <= i < |times| - 1
    ensures var q := [0.0] + Positions(times, flows, area).value;
      DistinctSteps(times, |q|) && Flows(q, times, area).Ok? && Flows(q, times, area).value[i] == flows[i]
  {
    var q := [0.0] + Positions(times, flows, area).value;
    PositionStep(times, flows, area, i, q);
    DifferenceOfStep(q, times, flows, area, i);
  }

  /** Round trip: differencing the positions of `FlowToPosition`, with the start position 0
      put in front, gives back every flow but the last, which no rectangle uses. */
  lemma DifferencesRecoverFlows(times: seq<real>, flows: seq<real>, area: real)
    requires area != 0.0 && |times| == |flows| >= 2
    requires DistinctSteps(times, |times|)
    ensures var q := [0.0] + Positions(times, flows, area).value;
      DistinctSteps(times, |q|) && Flows(q, times, area) == Ok(flows[..|flows| - 1])
  {
    var q := [0.0] + Positions(times, flows, area).value;
    forall i | 0 <= i < |times| - 1
      ensures Flows(q, times, area).value[i] == flows[i]
    {
      DifferenceAt(times, flows, area, i);
    }
    assert Flows(q, times, area).value == flows[..|flows| - 1];
  }
}
