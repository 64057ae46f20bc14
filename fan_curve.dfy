/** The linear saturated fan curve: configuration checks, the precomputed
    slope, and the mapping from an effective temperature to a fan speed. */
module FanCurve {
  import opened Wrappers

  /** Why a configuration is refused, in the order the checks are made. */
  datatype ConfigError =
    | TempRangeEmpty   // max_temp is not above min_temp
    | SpeedRangeEmpty  // max_speed is not above min_speed

  /** The two construction-time checks: the temperature range is checked first,
      then the speed range. */
  function Validate(minTemp: real, maxTemp: real, minSpeed: real, maxSpeed: real): (r: Outcome<ConfigError>)
    ensures r.Pass? <==> maxTemp > minTemp && maxSpeed > minSpeed
    ensures r == Fail(TempRangeEmpty) <==> maxTemp <= minTemp
    ensures r == Fail(SpeedRangeEmpty) <==> maxTemp > minTemp && maxSpeed <= minSpeed
  {
    if !(maxTemp > minTemp) then Fail(TempRangeEmpty)
    else if !(maxSpeed > minSpeed) then Fail(SpeedRangeEmpty)
    else Pass
  }

  /** The slope of the curve, precomputed once at construction: the rise in
      speed per degree between the two corner points. */
  function Slope(minTemp: real, maxTemp: real, minSpeed: real, maxSpeed: real): (r: real)
    requires maxTemp > minTemp
    ensures r * (maxTemp - minTemp) == maxSpeed - minSpeed
    ensures maxSpeed > minSpeed ==> r > 0.0
  {
    (maxSpeed - minSpeed) / (maxTemp - minTemp)
  }

  /** The curve parameters as the controller stores them, slope included. */
  datatype Curve = Curve(minTemp: real, maxTemp: real, minSpeed: real, maxSpeed: real, ratio: real)
  {
    /** What a successful construction guarantees. */
    predicate Valid() {
      Validate(minTemp, maxTemp, minSpeed, maxSpeed).Pass? &&
      ratio == Slope(minTemp, maxTemp, minSpeed, maxSpeed)
    }
  }

  /** The fan speed for effective temperature `t`: `minSpeed` below `minTemp`,
      `maxSpeed` above `maxTemp`, linear in between. */
  function Speed(c: Curve, t: real): (r: real)
    requires c.Valid()
    ensures c.minSpeed <= r <= c.maxSpeed
    ensures t <= c.minTemp ==> r == c.minSpeed
    ensures t >= c.maxTemp ==> r == c.maxSpeed
  {
    if t < c.minTemp then c.minSpeed
    else if t > c.maxTemp then c.maxSpeed
    else
      assert 0.0 <= c.ratio * (t - c.minTemp) <= c.ratio * (c.maxTemp - c.minTemp) by {
        RatioScales(c.ratio, t - c.minTemp, c.maxTemp - c.minTemp);
      }
      c.minSpeed + c.ratio * (t - c.minTemp)
  }

  /** Multiplying by a non-negative slope keeps the order of two non-negative distances. */
  lemma RatioScales(k: real, x: real, y: real)
    requires k >= 0.0 && 0.0 <= x <= y
    ensures 0.0 <= k * x <= k * y
  {
    assert k * y - k * x == k * (y - x);
  }

  /** The straight line through the corner points (minTemp, minSpeed) and
      (maxTemp, maxSpeed), extended beyond them. */
  function Line(c: Curve, t: real): real
    requires c.minTemp < c.maxTemp
  {
    c.minSpeed + (t - c.minTemp) * (c.maxSpeed - c.minSpeed) / (c.maxTemp - c.minTemp)
  }

  /** `x` cut off to `[lo, hi]`. */
  function Clamp(lo: real, hi: real, x: real): real {
    if x < lo then lo else if x > hi then hi else x
  }

  /** The curve is the line through its corner points, saturated at the two
      speed limits. */
  lemma SpeedIsClampedLine(c: Curve, t: real)
    requires c.Valid()
    ensures Speed(c, t) == Clamp(c.minSpeed, c.maxSpeed, Line(c, t))
  {
    var dT := c.maxTemp - c.minTemp;
    LineUsesRatio(c, t);
    if t < c.minTemp {
      assert c.ratio * (t - c.minTemp) < 0.0 by { Neg(c.ratio, t - c.minTemp); }
    } else if t > c.maxTemp {
      assert c.ratio * (t - c.minTemp) > c.ratio * dT by {
        assert c.ratio * (t - c.minTemp) - c.ratio * dT == c.ratio * (t - c.maxTemp);
        Neg(c.ratio, c.maxTemp - t);
        assert c.ratio * (c.maxTemp - t) == -(c.ratio * (t - c.maxTemp));
      }
    } else {
      RatioScales(c.ratio, t - c.minTemp, dT);
    }
  }

  /** The stored slope draws the line through the corner points. */
  lemma LineUsesRatio(c: Curve, t: real)
    requires c.Valid()
    ensures Line(c, t) == c.minSpeed + c.ratio * (t - c.minTemp)
  {
    var dT, dS := c.maxTemp - c.minTemp, c.maxSpeed - c.minSpeed;
    assert (t - c.minTemp) * dS / dT == (t - c.minTemp) * (dS / dT);
  }

  /** A positive slope times a negative distance is negative. */
  lemma Neg(k: real, x: real)
    requires k > 0.0 && x < 0.0
    ensures k * x < 0.0
  {
  }

  /** A hotter effective temperature never yields a slower fan. */
  lemma SpeedMonotone(c: Curve, t1: real, t2: real)
    requires c.Valid() && t1 <= t2
    ensures Speed(c, t1) <= Speed(c, t2)
  {
    if c.minTemp <= t1 && t2 <= c.maxTemp {
      RatioScales(c.ratio, t1 - c.minTemp, t2 - c.minTemp);
    }
  }

  /** Inside the range, the speed is the linear interpolation between the
      two corner points. */
  lemma SpeedInterpolates(c: Curve, t: real)
    requires c.Valid() && c.minTemp <= t <= c.maxTemp
    ensures Speed(c, t) == Line(c, t)
  {
    LineUsesRatio(c, t);
  }

  /** The curve the module constants of the program configure
      (30 to 45 degrees, 20 to 100 percent). */
  lemma ShippedCurve()
    ensures Validate(30.0, 45.0, 20.0, 100.0) == Pass
    ensures Slope(30.0, 45.0, 20.0, 100.0) == 16.0 / 3.0
    ensures var c := Curve(30.0, 45.0, 20.0, 100.0, 16.0 / 3.0);
      c.Valid() && Speed(c, 25.0) == 20.0 && Speed(c, 37.5) == 60.0 && Speed(c, 50.0) == 100.0
  {
  }
}
