/** The exponential moving average that smooths the temperature readings:
    the first reading seeds the estimate, every later one pulls it a
    fraction `alpha` of the way towards itself. */
module Ewma {
  import opened Wrappers

  function Abs(x: real): real {
    if x < 0.0 then -x else x
  }

  /** `x` lies on the closed segment between `a` and `b`, in either order. */
  predicate Between(x: real, a: real, b: real) {
    (a <= x <= b) || (b <= x <= a)
  }

  /** The estimate after one reading `temp`, given the estimate `prev` held
      before it (`None` before the first reading). */
  function Update(alpha: real, prev: Option<real>, temp: real): (e: real)
    ensures prev.None? ==> e == temp
    ensures alpha == 1.0 ==> e == temp
  {
    match prev
    case None => temp
    case Some(p) => alpha * temp + (1.0 - alpha) * p
  }

  /** A later update moves the estimate the fraction `alpha` of the way from
      the previous estimate to the reading, leaving the fraction `1 - alpha`
      of the gap. */
  lemma UpdateGap(alpha: real, p: real, temp: real)
    ensures Update(alpha, Some(p), temp) - p == alpha * (temp - p)
    ensures Update(alpha, Some(p), temp) - temp == (1.0 - alpha) * (p - temp)
  {
  }

  /** With a weight in [0, 1], one update lands between the previous
      estimate and the new reading: it never overshoots either. */
  lemma UpdateStaysBetween(alpha: real, p: real, temp: real)
    requires 0.0 <= alpha <= 1.0
    ensures Between(Update(alpha, Some(p), temp), p, temp)
  {
    UpdateGap(alpha, p, temp);
    Fraction(alpha, temp - p, Update(alpha, Some(p), temp) - p);
  }

  /** The estimates after each of `temps`, fed one by one starting from `prev`:
      the state the controller holds after each of its successive calls. */
  function Estimates(alpha: real, prev: Option<real>, temps: seq<real>): (est: seq<real>)
    ensures |est| == |temps|
    ensures temps != [] ==> est[0] == Update(alpha, prev, temps[0])
    decreases |temps|
  {
    if temps == [] then []
    else
      var e := Update(alpha, prev, temps[0]);
      [e] + Estimates(alpha, Some(e), temps[1..])
  }

  /** Every estimate after the first is the update of the one before it by
      the next reading: the trace is what successive calls produce. */
  lemma {:induction false} EstimatesStep(alpha: real, prev: Option<real>, temps: seq<real>, k: nat)
    requires 0 < k < |temps|
    ensures Estimates(alpha, prev, temps)[k] == Update(alpha, Some(Estimates(alpha, prev, temps)[k - 1]), temps[k])
    decreases k
  {
    var e := Update(alpha, prev, temps[0]);
    var rest := Estimates(alpha, Some(e), temps[1..]);
    assert Estimates(alpha, prev, temps) == [e] + rest;
    if k > 1 {
      EstimatesStep(alpha, Some(e), temps[1..], k - 1);
    }
  }

  /** The estimate after all of `temps` fed from scratch: `None` before the
      first reading, then the last entry of the trace. */
  function Smoothed(alpha: real, temps: seq<real>): (e: Option<real>)
    ensures e.None? <==> temps == []
  {
    if temps == [] then None else Some(Estimates(alpha, None, temps)[|temps| - 1])
  }

  /** Feeding one more reading extends the trace by the update of its last
      estimate, so the trace of a longer stream starts with the trace of a
      shorter one. */
  lemma {:induction false} EstimatesAppend(alpha: real, prev: Option<real>, temps: seq<real>, t: real)
    ensures Estimates(alpha, prev, temps + [t]) ==
      Estimates(alpha, prev, temps) +
      [Update(alpha, if temps == [] then prev else Some(Estimates(alpha, prev, temps)[|temps| - 1]), t)]
    decreases |temps|
  {
    if temps != [] {
      var e := Update(alpha, prev, temps[0]);
      assert (temps + [t])[1..] == temps[1..] + [t];
      EstimatesAppend(alpha, Some(e), temps[1..], t);
    }
  }

  /** One more reading updates the smoothed estimate by that reading: the
      state a call leaves is the state the trace predicts. */
  lemma SmoothedStep(alpha: real, temps: seq<real>, t: real)
    ensures Smoothed(alpha, temps + [t]) == Some(Update(alpha, Smoothed(alpha, temps), t))
  {
    EstimatesAppend(alpha, None, temps, t);
  }

  /** With full weight on the new reading there is no memory: the estimate
      is always the latest reading. */
  lemma {:induction false} FullWeightTracksReadings(prev: Option<real>, temps: seq<real>)
    ensures Estimates(1.0, prev, temps) == temps
    decreases |temps|
  {
    if temps != [] {
      FullWeightTracksReadings(Some(temps[0]), temps[1..]);
      assert temps == [temps[0]] + temps[1..];
    }
  }

  /** `n` copies of the reading `t`. */
  function Constant(t: real, n: nat): (s: seq<real>)
    ensures |s| == n && forall i :: 0 <= i < n ==> s[i] == t
  {
    seq(n, _ => t)
  }

  function Pow(q: real, n: nat): real {
    if n == 0 then 1.0 else q * Pow(q, n - 1)
  }

  /** A power of a number in [0, 1] stays in [0, 1]. */
  lemma {:induction false} PowBounds(q: real, n: nat)
    requires 0.0 <= q <= 1.0
    ensures 0.0 <= Pow(q, n) <= 1.0
  {
    if n > 0 {
      PowBounds(q, n - 1);
      Scale(q, Pow(q, n - 1));
    }
  }

  /** The estimate after `k` readings of the same value `t`, starting from
      the estimate `e`. */
  function Settle(alpha: real, e: real, t: real, k: nat): real {
    if k == 0 then e else Update(alpha, Some(Settle(alpha, e, t, k - 1)), t)
  }

  /** `Settle` is what the trace of a constant stream holds. */
  lemma {:induction false} SettleIsTrace(alpha: real, e: real, t: real, n: nat, k: nat)
    requires k < n
    ensures Estimates(alpha, Some(e), Constant(t, n))[k] == Settle(alpha, e, t, k + 1)
  {
    if k > 0 {
      SettleIsTrace(alpha, e, t, n, k - 1);
      EstimatesStep(alpha, Some(e), Constant(t, n), k);
    }
  }

  /** Closed form: after `k` readings of `t` the gap to `t` is `(1 - alpha)^k`
      times the initial gap. */
  lemma {:induction false} SettleGap(alpha: real, e: real, t: real, k: nat)
    ensures Settle(alpha, e, t, k) - t == Pow(1.0 - alpha, k) * (e - t)
  {
    if k > 0 {
      SettleGap(alpha, e, t, k - 1);
      UpdateGap(alpha, Settle(alpha, e, t, k - 1), t);
      GeometricStep(1.0 - alpha, Settle(alpha, e, t, k) - t, Settle(alpha, e, t, k - 1) - t, e - t, k - 1);
    }
  }

  /** The rate of convergence: after `k` readings of `t` the gap to `t` is at
      most the initial gap divided by `1 + k * alpha`. */
  lemma {:induction false} ConvergenceRate(alpha: real, e: real, t: real, k: nat)
    requires 0.0 <= alpha <= 1.0
    ensures Abs(Settle(alpha, e, t, k) - t) * Damping(alpha, k) <= Abs(e - t)
  {
    if k > 0 {
      ConvergenceRate(alpha, e, t, k - 1);
      DampingStep(alpha, k - 1);
      RateAdvance(alpha, Settle(alpha, e, t, k - 1), t, Damping(alpha, k - 1), Damping(alpha, k), Abs(e - t));
    } else {
      assert Damping(alpha, 0) == 1.0;
    }
  }

  /** The divisor of the convergence bound after `k` steps: `1 + k * alpha`. */
  function Damping(alpha: real, k: nat): real {
    1.0 + k as real * alpha
  }

  lemma DampingStep(alpha: real, k: nat)
    requires alpha >= 0.0
    ensures Damping(alpha, k) >= 1.0
    ensures Damping(alpha, k + 1) == Damping(alpha, k) + alpha
  {
  }

  /** With a weight in [0, 1], fed a constant reading `t` from estimate `e`,
      every estimate stays between `e` and `t`, and each one lies between the
      one before it and `t`. */
  lemma {:induction false} SettleBetween(alpha: real, e: real, t: real, k: nat)
    requires 0.0 <= alpha <= 1.0
    ensures Between(Settle(alpha, e, t, k), e, t)
    ensures k > 0 ==> Between(Settle(alpha, e, t, k), Settle(alpha, e, t, k - 1), t)
  {
    if k > 0 {
      SettleBetween(alpha, e, t, k - 1);
      UpdateStaysBetween(alpha, Settle(alpha, e, t, k - 1), t);
    }
  }

  /** After the seed `t0` and then readings of `t1`, the trace holds `t0`
      followed by the estimates of a constant stream started from `t0`. */
  lemma SeededTrace(alpha: real, t0: real, t1: real, n: nat, k: nat)
    requires k <= n
    ensures Estimates(alpha, None, [t0] + Constant(t1, n))[k] == Settle(alpha, t0, t1, k)
  {
    var temps := [t0] + Constant(t1, n);
    assert temps[1..] == Constant(t1, n);
    assert Estimates(alpha, None, temps) == [t0] + Estimates(alpha, Some(t0), Constant(t1, n));
    if k > 0 {
      SettleIsTrace(alpha, t0, t1, n, k - 1);
    }
  }

  /** The controller's view of a constant stream: the first reading `t0`
      seeds the estimate, then `n` readings of `t1` follow. The estimates
      start at `t0`, stay within the range spanned by `t0` and `t1`, and
      approach `t1` monotonically: each lies between the one before and `t1`. */
  lemma ConstantStreamAfterSeed(alpha: real, t0: real, t1: real, n: nat)
    requires 0.0 <= alpha <= 1.0
    ensures Estimates(alpha, None, [t0] + Constant(t1, n))[0] == t0
    ensures forall k :: 0 <= k <= n ==> Between(Estimates(alpha, None, [t0] + Constant(t1, n))[k], t0, t1)
    ensures forall k :: 0 < k <= n ==>
      Between(Estimates(alpha, None, [t0] + Constant(t1, n))[k], Estimates(alpha, None, [t0] + Constant(t1, n))[k - 1], t1)
  {
    forall k | 0 <= k <= n
      ensures Between(Estimates(alpha, None, [t0] + Constant(t1, n))[k], t0, t1)
      ensures k > 0 ==>
        Between(Estimates(alpha, None, [t0] + Constant(t1, n))[k], Estimates(alpha, None, [t0] + Constant(t1, n))[k - 1], t1)
    {
      SeededTrace(alpha, t0, t1, n, k);
      if k > 0 {
        SeededTrace(alpha, t0, t1, n, k - 1);
      }
      SettleBetween(alpha, t0, t1, k);
    }
    SeededTrace(alpha, t0, t1, n, 0);
  }

  /** The controller's view of the closed form: after the seed `t0` and `k`
      readings of `t1`, the gap to `t1` is exactly `(1 - alpha)^k` times the
      initial gap. */
  lemma ConstantStreamGap(alpha: real, t0: real, t1: real, n: nat, k: nat)
    requires k <= n
    ensures Estimates(alpha, None, [t0] + Constant(t1, n))[k] - t1 == Pow(1.0 - alpha, k) * (t0 - t1)
  {
    SeededTrace(alpha, t0, t1, n, k);
    SettleGap(alpha, t0, t1, k);
  }

  /** The controller's view of convergence: after the seed `t0` and `k`
      readings of `t1`, the gap to `t1` is at most `|t0 - t1| / (1 + k * alpha)`. */
  lemma ConstantStreamConverges(alpha: real, t0: real, t1: real, n: nat, k: nat)
    requires 0.0 <= alpha <= 1.0 && k <= n
    ensures Abs(Estimates(alpha, None, [t0] + Constant(t1, n))[k] - t1) * Damping(alpha, k) <= Abs(t0 - t1)
  {
    SeededTrace(alpha, t0, t1, n, k);
    ConvergenceRate(alpha, t0, t1, k);
  }

  // Arithmetic facts over the reals. Every product is taken of parameters,
  // which keeps the solver's work linear at each call site.

  /** A weight in [0, 1] shrinks a non-negative distance. */
  lemma Scale(k: real, d: real)
    requires 0.0 <= k <= 1.0 && d >= 0.0
    ensures 0.0 <= k * d <= d
  {
    assert d - k * d == (1.0 - k) * d;
  }

  /** A fraction in [0, 1] of a signed distance `d` lies between 0 and `d`. */
  lemma Fraction(k: real, d: real, g: real)
    requires 0.0 <= k <= 1.0 && g == k * d
    ensures Between(g, 0.0, d)
  {
    if d >= 0.0 {
      Scale(k, d);
    } else {
      Flip(k, d, -d);
      Scale(k, -d);
    }
  }

  lemma Flip(k: real, d: real, nd: real)
    requires nd == -d
    ensures k * nd == -(k * d)
  {
  }

  /** Multiplying by a non-negative factor keeps an inequality. */
  lemma MulMono(p: real, x: real, y: real)
    requires p >= 0.0 && x <= y
    ensures p * x <= p * y
  {
    assert p * y - p * x == p * (y - x);
  }

  lemma MulNonNeg(x: real, y: real)
    requires x >= 0.0 && y >= 0.0
    ensures x * y >= 0.0
  {
  }

  /** One more factor `q` on a gap of `Pow(q, k) * d`. */
  lemma GeometricStep(q: real, x: real, y: real, d: real, k: nat)
    requires x == q * y && y == Pow(q, k) * d
    ensures x == Pow(q, k + 1) * d
  {
    Chain(q, x, y, Pow(q, k), d, Pow(q, k + 1));
  }

  lemma Chain(q: real, x: real, y: real, p: real, d: real, qp: real)
    requires x == q * y && y == p * d && qp == q * p
    ensures x == qp * d
  {
  }

  /** Scaling by a non-negative factor scales the absolute value. */
  lemma AbsScale(q: real, x: real, y: real)
    requires q >= 0.0 && y == q * x
    ensures Abs(y) == q * Abs(x)
  {
    if x < 0.0 {
      Flip(q, x, -x);
      MulNonNeg(q, -x);
    } else {
      MulNonNeg(q, x);
    }
  }

  /** One update keeps the convergence bound: if the gap times `b0` is at
      most `d`, the next gap times `b0 + alpha` is too. */
  lemma RateAdvance(alpha: real, s0: real, t: real, b0: real, b1: real, d: real)
    requires 0.0 <= alpha <= 1.0 && b0 >= 1.0 && b1 == b0 + alpha
    requires Abs(s0 - t) * b0 <= d
    ensures Abs(Update(alpha, Some(s0), t) - t) * b1 <= d
  {
    UpdateGap(alpha, s0, t);
    AbsScale(1.0 - alpha, s0 - t, Update(alpha, Some(s0), t) - t);
    RateStep(alpha, Abs(s0 - t), Abs(Update(alpha, Some(s0), t) - t), b0, b1, d);
  }

  /** One step of the convergence bound: if `g0 * b0 <= d`, the next gap
      `g1 = (1 - a) * g0` satisfies `g1 * (b0 + a) <= d`. */
  lemma RateStep(a: real, g0: real, g1: real, b0: real, b1: real, d: real)
    requires 0.0 <= a <= 1.0 && g0 >= 0.0 && b0 >= 1.0
    requires g1 == (1.0 - a) * g0 && b1 == b0 + a
    requires g0 * b0 <= d
    ensures g1 * b1 <= d
  {
    // (1 - a) * (b0 + a) = b0 - a * (b0 - 1) - a * a, at most b0
    var c := (1.0 - a) * b1;
    assert c == b0 - a * (b0 - 1.0) - a * a;
    MulNonNeg(a, b0 - 1.0);
    MulNonNeg(a, a);
    MulMono(g0, c, b0);
    assert g1 * b1 == g0 * c;
  }
}
