/** The controller object: it holds the curve parameters fixed at
    construction and the smoothed temperature, which every call to
    `GetSpeed` updates before mapping it through the curve. */
module FanControl {
  import opened Wrappers
  import opened FanCurve
  import opened Ewma

  class Controller {
    var minTemp: real
    var maxTemp: real
    var minSpeed: real
    var maxSpeed: real
    var ratio: real
    var alpha: real
    /** The smoothed temperature; `None` until the first reading arrives. */
    var estimate: Option<real>
    /** Every reading passed to `GetSpeed` so far, oldest first. */
    ghost var readings: seq<real>

    /** The curve parameters as stored. */
    function Params(): Curve
      reads this
    {
      Curve(minTemp, maxTemp, minSpeed, maxSpeed, ratio)
    }

    /** The stored curve is one construction accepts, and the estimate is
        the smoothed value of all readings seen so far. */
    ghost predicate Valid()
      reads this
    {
      Params().Valid() && estimate == Smoothed(alpha, readings)
    }

    /** Construction with both ranges already known to be non-empty; the
        slope is computed once here. The weight `alpha` is stored unchecked. */
    constructor (minTemp: real, maxTemp: real, minSpeed: real, maxSpeed: real, alpha: real)
      requires Validate(minTemp, maxTemp, minSpeed, maxSpeed) == Pass
      ensures Valid()
      ensures Params() == Curve(minTemp, maxTemp, minSpeed, maxSpeed, Slope(minTemp, maxTemp, minSpeed, maxSpeed))
      ensures this.alpha == alpha
      ensures estimate == None && readings == []
    {
      this.minTemp := minTemp;
      this.maxTemp := maxTemp;
      this.minSpeed := minSpeed;
      this.maxSpeed := maxSpeed;
      this.ratio := (maxSpeed - minSpeed) / (maxTemp - minTemp);
      this.alpha := alpha;
      this.estimate := None;
      this.readings := [];
    }

    /** Construction as the caller sees it: the temperature range is checked,
        then the speed range, and a failed check yields its error instead of
        a controller. */
    static method Create(minTemp: real, maxTemp: real, minSpeed: real, maxSpeed: real, alpha: real)
      returns (r: Result<Controller, ConfigError>)
      ensures r.Success? <==> maxTemp > minTemp && maxSpeed > minSpeed
      ensures r.Failure? ==> Validate(minTemp, maxTemp, minSpeed, maxSpeed) == Fail(r.error)
      ensures r.Success? ==> fresh(r.value) && r.value.Valid() && r.value.alpha == alpha
      ensures r.Success? ==>
        r.value.Params() == Curve(minTemp, maxTemp, minSpeed, maxSpeed, Slope(minTemp, maxTemp, minSpeed, maxSpeed))
      ensures r.Success? ==> r.value.estimate == None && r.value.readings == []
    {
      if !(maxTemp > minTemp) {
        return Failure(TempRangeEmpty);
      }
      if !(maxSpeed > minSpeed) {
        return Failure(SpeedRangeEmpty);
      }
      var c := new Controller(minTemp, maxTemp, minSpeed, maxSpeed, alpha);
      return Success(c);
    }

    /** Folds `temp` into the estimate (the first reading seeds it) and maps
        the new estimate through the curve. Only the estimate changes. */
    method GetSpeed(temp: real) returns (speed: real)
      requires Valid()
      modifies this`estimate, this`readings
      ensures Valid()
      ensures readings == old(readings) + [temp]
      ensures old(estimate) == None ==> estimate == Some(temp)
      ensures estimate == Some(Update(alpha, old(estimate), temp))
      ensures speed == Speed(Params(), estimate.value)
      ensures minSpeed <= speed <= maxSpeed
    {
      var t: real;
      match estimate {
        case None =>
          t := temp;
        case Some(prev) =>
          t := alpha * temp + (1.0 - alpha) * prev;
      }
      assert t == Update(alpha, estimate, temp);
      SmoothedStep(alpha, readings, temp);
      estimate := Some(t);
      readings := readings + [temp];
      if t < minTemp {
        return minSpeed;
      }
      if t > maxTemp {
        return maxSpeed;
      }
      speed := minSpeed + ratio * (t - minTemp);
    }
  }

  /** The speeds a controller returns for `temps`, fed one call at a time
      from the estimate `prev`. */
  function Speeds(c: Curve, alpha: real, prev: Option<real>, temps: seq<real>): (s: seq<real>)
    requires c.Valid()
    ensures |s| == |temps|
    ensures forall i :: 0 <= i < |s| ==> c.minSpeed <= s[i] <= c.maxSpeed
  {
    var est := Estimates(alpha, prev, temps);
    seq(|temps|, i requires 0 <= i < |temps| => Speed(c, est[i]))
  }

  /** With `alpha == 1` there is no smoothing: every call returns the curve's
      speed for that call's own reading. */
  lemma FullWeightIsUnsmoothed(c: Curve, prev: Option<real>, temps: seq<real>)
    requires c.Valid()
    ensures forall i :: 0 <= i < |temps| ==> Speeds(c, 1.0, prev, temps)[i] == Speed(c, temps[i])
  {
    FullWeightTracksReadings(prev, temps);
  }

  /** A controller held at a constant temperature `t1` after the first
      reading `t0` returns speeds that move monotonically from the speed for
      `t0` towards the speed for `t1`: each lies between the one before it
      and the speed for `t1`. */
  lemma ConstantStreamSpeeds(c: Curve, alpha: real, t0: real, t1: real, n: nat)
    requires c.Valid() && 0.0 <= alpha <= 1.0
    ensures Speeds(c, alpha, None, [t0] + Constant(t1, n))[0] == Speed(c, t0)
    ensures forall k :: 0 < k <= n ==>
      Between(Speeds(c, alpha, None, [t0] + Constant(t1, n))[k], Speeds(c, alpha, None, [t0] + Constant(t1, n))[k - 1], Speed(c, t1))
  {
    ConstantStreamAfterSeed(alpha, t0, t1, n);
    var est := Estimates(alpha, None, [t0] + Constant(t1, n));
    forall k | 0 < k <= n
      ensures Between(Speeds(c, alpha, None, [t0] + Constant(t1, n))[k], Speeds(c, alpha, None, [t0] + Constant(t1, n))[k - 1], Speed(c, t1))
    {
      assert Between(est[k], est[k - 1], t1);
      if est[k - 1] <= est[k] <= t1 {
        SpeedMonotone(c, est[k - 1], est[k]);
        SpeedMonotone(c, est[k], t1);
      } else {
        SpeedMonotone(c, est[k], est[k - 1]);
        SpeedMonotone(c, t1, est[k]);
      }
    }
  }
}
