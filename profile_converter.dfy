/** The profile converter (`ProfileConverter`): the syringe's geometry and the loops that turn
    flow and volume profiles into piston positions and velocities and back. Each method builds
    its list element by element, as the C# loops do, and is proved equal to the matching
    function of the `Flow` module. */
module Profile {
  import opened Outcomes
  import opened Flow

  class ProfileConverter {
    var SyringeDiameter: real  // [mm]
    var SectionArea: real      // [mm^2]

    /** A 34 mm syringe; the section area is that of its circular cross-section. */
    constructor ()
      ensures SyringeDiameter == 34.0
      ensures SectionArea == CircleArea(SyringeDiameter) == 289.0 * Pi
      ensures SectionArea > 0.0
    {
      SyringeDiameter := 34.0;
      SectionArea := CircleArea(34.0);
    }

    /** `FlowToPosition`: integrates the flows over the times, then sums up the volumes as
        displacements of the piston. */
    method FlowToPosition(times: seq<real>, flows: seq<real>) returns (r: Result<seq<real>>)
      requires SectionArea != 0.0
      ensures r == Positions(times, flows, SectionArea)
    {
      var integrated := Integrate(times, flows);
      if integrated.Err? {
        return Err(integrated.error);
      }
      var volume := integrated.value;
      if |volume| == 0 {
        return Err(IndexOutOfRange);
      }
      ghost var steps := ToLinear(volume, SectionArea);
      var positions := [volume[0] * 1000.0 / SectionArea];
      var i := 1;
      while i <= |volume| - 1
        invariant 1 <= i <= |volume|
        invariant positions == RunningSums(steps)[..i]
      {
        assert RunningSums(steps)[i] == RunningSums(steps)[i - 1] + steps[i];
        positions := positions + [volume[i] * 1000.0 / SectionArea + positions[i - 1]];
        i := i + 1;
      }
      assert RunningSums(steps)[..i] == RunningSums(steps);
      return Ok(positions);
    }

    /** `FlowToVelocity`: each flow (ml/s) as a piston velocity (mm/s). */
    method FlowToVelocity(flows: seq<real>) returns (velocity: seq<real>)
      requires SectionArea != 0.0
      ensures velocity == ToLinear(flows, SectionArea)
    {
      velocity := [];
      var i := 0;
      while i < |flows|
        invariant 0 <= i <= |flows|
        invariant velocity == ToLinear(flows[..i], SectionArea)
      {
        ToLinearSnoc(flows, i, SectionArea);
        velocity := velocity + [flows[i] * 1000.0 / SectionArea];
        i := i + 1;
      }
      assert flows[..i] == flows;
    }

    /** `PositionToVolume`: each piston position (mm) as a displaced volume (ml). */
    method PositionToVolume(positions: seq<real>) returns (volumes: seq<real>)
      ensures volumes == ToVolumetric(positions, SectionArea)
    {
      var area := SectionArea;
      volumes := [];
      var i := 0;
      while i < |positions|
        invariant 0 <= i <= |positions|
        invariant volumes == ToVolumetric(positions[..i], area)
      {
        ToVolumetricSnoc(positions, i, area);
        volumes := volumes + [positions[i] * area / 1000.0];
        i := i + 1;
      }
      assert positions[..i] == positions;
    }

    /** `PositionToFlow`: the flow between each pair of neighbouring samples. The times are
        looked up at the same indices as the positions, without a length check. */
    method PositionToFlow(positions: seq<real>, times: seq<real>) returns (r: Result<seq<real>>)
      requires DistinctSteps(times, |positions|)
      ensures r == Flows(positions, times, SectionArea)
    {
      var area := SectionArea;
      var flows := [];
      var i := 1;
      while i < |positions|
        invariant 1 <= i && (|positions| > 0 ==> i <= |positions|)
        invariant |positions| > 0 ==> (i == 1 || i <= |times|) && flows == Flows(positions[..i], times, area).value
        invariant |positions| == 0 ==> flows == []
      {
        if i >= |times| {
          return Err(IndexOutOfRange);
        }
        var deltaPosition := positions[i] - positions[i - 1];
        var deltaTime := times[i] - times[i - 1];
        FlowsSnoc(positions, times, area, i, (deltaPosition / deltaTime) * area / 1000.0);
        flows := flows + [(deltaPosition / deltaTime) * area / 1000.0];
        i := i + 1;
      }
      assert |positions| > 0 ==> positions[..i] == positions;
      return Ok(flows);
    }

    /** `VelocityToFlow`: each piston velocity (mm/s) as a flow (ml/s). */
    method VelocityToFlow(velocities: seq<real>) returns (flows: seq<real>)
      ensures flows == ToVolumetric(velocities, SectionArea)
    {
      var area := SectionArea;
      flows := [];
      var i := 0;
      while i < |velocities|
        invariant 0 <= i <= |velocities|
        invariant flows == ToVolumetric(velocities[..i], area)
      {
        ToVolumetricSnoc(velocities, i, area);
        flows := flows + [velocities[i] * area / 1000.0];
        i := i + 1;
      }
      assert velocities[..i] == velocities;
    }

    /** `Integrate`: unequal lists throw; otherwise one left rectangle y[i] * (x[i+1] - x[i])
        per sample but the last. */
    static method Integrate(x: seq<real>, y: seq<real>) returns (r: Result<seq<real>>)
      ensures r == Integrated(x, y)
    {
      if |x| != |y| {
        return Err(LengthMismatch);
      }
      var primitive := [];
      var i := 0;
      while i <= |x| - 1 - 1
        invariant 0 <= i && (i > 0 ==> i <= |x| - 1)
        invariant i < |x| ==> primitive == Rectangles(x[..i + 1], y[..i + 1])
        invariant |x| == 0 ==> primitive == []
      {
        var areaForward := y[i] * (x[i + 1] - x[i]);
        RectanglesSnoc(x, y, i);
        primitive := primitive + [areaForward];
        i := i + 1;
      }
      assert |x| > 0 ==> x[..i + 1] == x && y[..i + 1] == y;
      return Ok(primitive);
    }
  }
}
