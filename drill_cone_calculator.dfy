/** The drill-cone calculator: the height of a drill's conical point, from
    the tip to where the full diameter starts, given the diameter and the
    point (apex) angle in degrees. Both the circle constant and the tangent
    are parameters: the model assumes of them only what the real π and the
    real tangent satisfy. */
module DrillConeCalculator {
  import opened Wrappers
  import opened JsNumbers

  /** The tangent is positive between 0 and a right angle (pi / 2). */
  ghost predicate TanPositive(pi: real, tan: real -> real) {
    forall x :: 0.0 < x < pi / 2.0 ==> tan(x) > 0.0
  }

  /** The tangent of 45 degrees (pi / 4) is 1. */
  ghost predicate TanQuarterPiIsOne(pi: real, tan: real -> real) {
    tan(pi / 4.0) == 1.0
  }

  /** Half the apex angle, converted from degrees to radians. */
  function HalfAngle(pi: real, alpha: real): (r: real)
    ensures r * 360.0 == alpha * pi
  {
    (alpha / 2.0) * (pi / 180.0)
  }

  /** Every accepted apex angle gives a half angle strictly between 0 and a
      right angle, where the tangent is positive. */
  lemma HalfAngleBelowRightAngle(pi: real, alpha: real)
    requires pi > 0.0 && 0.0 < alpha < 180.0
    ensures 0.0 < HalfAngle(pi, alpha) < pi / 2.0
  {
    var r, gap := HalfAngle(pi, alpha), 180.0 - alpha;
    MulPositive(alpha, pi);
    MulPositive(gap, pi);
    assert r * 360.0 == alpha * pi;
    assert (pi / 2.0 - r) * 360.0 == gap * pi;
  }

  /** `calculateConeHeight`: (D / 2) / tan(alpha / 2) for a positive diameter
      and an apex angle strictly between 0 and 180 degrees, or nothing. */
  function ConeHeight(diameter: Option<real>, angle: Option<real>, pi: real, tan: real -> real): (r: Option<real>)
    requires pi > 0.0 && TanPositive(pi, tan)
    ensures r.Some? <==> diameter.Some? && angle.Some? && diameter.value > 0.0 && 0.0 < angle.value < 180.0
    ensures r.Some? ==> r.value > 0.0 && r.value * tan(HalfAngle(pi, angle.value)) == diameter.value / 2.0
  {
    if diameter.Some? && angle.Some? && diameter.value > 0.0 && 0.0 < angle.value < 180.0 then
      HalfAngleBelowRightAngle(pi, angle.value);
      var t := tan(HalfAngle(pi, angle.value));
      Some((diameter.value / 2.0) / t)
    else None
  }

  /** A 90 degree point is as high as half the diameter: 10 mm gives 5 mm. */
  lemma RightAnglePointIsHalfDiameter(d: real, pi: real, tan: real -> real)
    requires pi > 0.0 && TanPositive(pi, tan) && TanQuarterPiIsOne(pi, tan)
    requires d > 0.0
    ensures ConeHeight(Some(d), Some(90.0), pi, tan) == Some(d / 2.0)
    ensures d == 10.0 ==> ConeHeight(Some(d), Some(90.0), pi, tan) == Some(5.0)
  {
    assert HalfAngle(pi, 90.0) == pi / 4.0;
  }

  /** The component's state: the parsed diameter and angle fields. */
  class DrillConeCalculatorState {
    var diameter: Option<real>
    var angle: Option<real>

    /** The height shown for the current fields. */
    function Result(pi: real, tan: real -> real): Option<real>
      reads this
      requires pi > 0.0 && TanPositive(pi, tan)
    {
      ConeHeight(diameter, angle, pi, tan)
    }

    /** The state the component starts in: both fields empty. */
    constructor ()
      ensures diameter == None && angle == None
    {
      diameter, angle := None, None;
    }

    /** `handleClear`: empties both fields, so no height is shown. */
    method HandleClear()
      modifies this
      ensures diameter == None && angle == None
      ensures forall pi: real, tan: real -> real :: pi > 0.0 && TanPositive(pi, tan) ==> Result(pi, tan) == None
    {
      diameter := None;
      angle := None;
    }
  }
}
