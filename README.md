# Fan controller model

A Dafny model of the `Controller` of `fan_control.py`, the part of the
fan daemon that turns temperature readings into fan speeds.

- A controller is built from a temperature range `[minTemp, maxTemp]`, a
  speed range `[minSpeed, maxSpeed]` (percent) and a smoothing weight `alpha`.
  Construction refuses an empty temperature range first, then an empty speed
  range. It precomputes the slope `ratio` of the fan curve.
- Each call to `GetSpeed(temp)` first updates the smoothed temperature, an
  exponentially weighted moving average. The first reading seeds the
  estimate; each later one gives `alpha * temp + (1 - alpha) * estimate`.
- It then maps the estimate through a linear saturated curve: `minSpeed`
  below `minTemp`, `maxSpeed` above `maxTemp`, and linear in between.

The project is organised as follows:

- `wrappers.dfy`: the `Option`, `Result` and `Outcome` datatypes.
- `fan_curve.dfy` (module `FanCurve`): the configuration checks, the slope,
  and the curve `Speed`. Its lemmas cover saturation, bounds, monotonicity,
  and the curve as a clamped line.
- `ewma.dfy` (module `Ewma`): one smoothing step `Update`, and the trace
  `Estimates` of the estimates over a stream of readings. Its lemmas cover
  no-overshoot, monotone approach to a constant reading, the closed form
  `(1 - alpha)^k` of the remaining gap, and an explicit convergence bound.
- `controller.dfy` (module `FanControl`): the `Controller` class, whose
  fields are updated in place. It adds a ghost history of readings, so that
  the stored estimate is always the one the trace predicts. It also holds
  the sequence of speeds returned over a stream.

## Model

| member | source | states |
|---|---|---|
| FanCurve.Validate | fan_control.py:75-76 | the configuration is accepted exactly when `maxTemp > minTemp` and `maxSpeed > minSpeed`; an empty temperature range is reported whatever the speeds, an empty speed range only when the temperatures are fine |
| FanCurve.Slope | fan_control.py:81 | the stored ratio times the temperature span equals the speed span, and it is positive for an accepted configuration |
| FanCurve.Speed | fan_control.py:90-94 | the speed lies in `[minSpeed, maxSpeed]`; it is exactly `minSpeed` at and below `minTemp` and exactly `maxSpeed` at and above `maxTemp` |
| FanCurve.SpeedIsClampedLine | fan_control.py:90-94 | the curve equals the line through `(minTemp, minSpeed)` and `(maxTemp, maxSpeed)`, clamped to the speed range |
| FanCurve.LineUsesRatio | fan_control.py:81 | the precomputed ratio draws the same line as the two corner points |
| FanCurve.SpeedInterpolates | fan_control.py:94 | inside the temperature range the speed is the linear interpolation between the corner points |
| FanCurve.SpeedMonotone | fan_control.py:90-94 | a higher effective temperature never gives a lower speed |
| FanCurve.ShippedCurve | fan_control.py:12-15 | the shipped constants (30 to 45 degrees, 20 to 100 percent) are accepted, have slope 16/3, and give 20, 60 and 100 percent at 25, 37.5 and 50 degrees |
| Ewma.Update | fan_control.py:86-89 | the first reading becomes the estimate whatever `alpha` is; with `alpha == 1` the estimate is the latest reading |
| Ewma.UpdateGap | fan_control.py:89 | a later update moves the estimate by `alpha` times the gap to the reading and leaves `(1 - alpha)` of that gap |
| Ewma.UpdateStaysBetween | fan_control.py:89 | with `0 <= alpha <= 1` an update lands between the previous estimate and the reading |
| Ewma.Estimates | fan_control.py:86-89 | the trace has one estimate per reading, and its first entry is the update of the starting estimate by the first reading |
| Ewma.EstimatesStep | fan_control.py:89 | each later entry of the trace is the update of the entry before it by the next reading |
| Ewma.EstimatesAppend | fan_control.py:86-89 | one more reading extends the trace by one update and leaves the earlier entries unchanged |
| Ewma.Smoothed | fan_control.py:86-89 | the estimate after a stream is absent exactly when no reading has arrived yet |
| Ewma.SmoothedStep | fan_control.py:86-89 | the estimate after one more reading is the update of the previous estimate by that reading |
| Ewma.FullWeightTracksReadings | fan_control.py:89 | with `alpha == 1` every estimate equals its reading |
| Ewma.SettleIsTrace | fan_control.py:89 | the trace of a constant stream is the repeated update towards that constant |
| Ewma.SettleGap | fan_control.py:89 | after `k` readings of `t` the gap to `t` is `(1 - alpha)^k` times the initial gap |
| Ewma.SettleBetween | fan_control.py:89 | with `0 <= alpha <= 1`, under a constant reading every estimate stays between the start and the reading, and each lies between the one before and the reading |
| Ewma.ConvergenceRate | fan_control.py:89 | with `0 <= alpha <= 1`, after `k` constant readings the gap times `1 + k * alpha` is at most the initial gap |
| Ewma.SeededTrace | fan_control.py:86-89 | after a first reading `t0` and then readings `t1`, the trace is the repeated update from `t0` towards `t1` |
| Ewma.ConstantStreamAfterSeed | fan_control.py:86-89 | after a first reading `t0` and then readings `t1`, the estimates start at `t0`, stay between `t0` and `t1`, and move monotonically towards `t1` |
| Ewma.ConstantStreamGap | fan_control.py:86-89 | after a first reading `t0` and then `k` readings `t1`, the estimate minus `t1` is `(1 - alpha)^k * (t0 - t1)` |
| Ewma.ConstantStreamConverges | fan_control.py:86-89 | after a first reading `t0` and then `k` readings `t1`, the estimate is within `abs(t0 - t1) / (1 + k * alpha)` of `t1` |
| FanControl.Controller.constructor | fan_control.py:74-82 | with both ranges non-empty, the fields hold the arguments, the ratio is the slope, and there is no estimate yet |
| FanControl.Controller.Create | fan_control.py:74-82 | construction succeeds exactly when both ranges are non-empty; on failure it reports the first failed check; on success it returns a fresh controller as the constructor describes |
| FanControl.Controller.GetSpeed | fan_control.py:84-94 | the estimate becomes the update of the old estimate by the reading, seeded on the first call; it remains the smoothed value of every reading seen; the curve parameters and `alpha` do not change; the result is the curve's speed at the new estimate and lies in `[minSpeed, maxSpeed]` |
| FanControl.Speeds | fan_control.py:84-94 | the speeds returned over a stream of calls, one per reading, each in `[minSpeed, maxSpeed]` |
| FanControl.FullWeightIsUnsmoothed | fan_control.py:89-94 | with `alpha == 1` each call returns the curve's speed for that call's own reading |
| FanControl.ConstantStreamSpeeds | fan_control.py:84-94 | held at a constant temperature after a first reading, the returned speeds start at the speed for the first reading and move monotonically towards the speed for the constant |

## Left out

- `Sensor` and `PWM` (sysfs file reads and writes) are not part of this model, because they are I/O.
- The `__main__` loop (sleeping, reading, writing the duty cycle) is not part of this model, because it is I/O and timing.
- The module constants are passed as parameters; `FanCurve.ShippedCurve` checks the curve they configure.
- Numbers are mathematical reals. Floating-point rounding, infinities and NaN are not modelled.
- Construction failure is modelled as a `Failure` result rather than a raised `AssertionError`. The model does not capture that `python -O` strips those `assert` statements.
- The weight `alpha` is stored unchecked, as the source does. The no-overshoot and convergence lemmas assume `0 <= alpha <= 1`.
- The smoothing weight is a required constructor argument in the code. There is no "no smoothing" mode apart from `alpha == 1`, which `FullWeightTracksReadings` and `FullWeightIsUnsmoothed` cover.
- The source tells the first call to `get_speed` apart by the missing `_temp` attribute. The model uses an `Option` field that starts as `None`.
