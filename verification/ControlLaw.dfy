// The heading-lock control law of main/mkh_thl.cpp over exact reals.
module ControlLaw {
  // The live tunables; negative values are refused by the tuning command.
  datatype Tuning = Tuning(deadband: real, kp: real, floor: real, ceiling: real, cancel: real)

  predicate NonNegative(t: Tuning) {
    t.deadband >= 0.0 && t.kp >= 0.0 && t.floor >= 0.0 && t.ceiling >= 0.0 && t.cancel >= 0.0
  }

  function Abs(x: real): real {
    if x < 0.0 then -x else x
  }

  // fmodf(x, 360): what is left after whole turns towards zero.
  function FMod360(x: real): real {
    if x >= 0.0 then x - 360.0 * ((x / 360.0).Floor as real)
    else x + 360.0 * ((-x / 360.0).Floor as real)
  }

  function Wrap180(x: real): real {
    var deg := FMod360(x);
    if deg > 180.0 then deg - 360.0 else if deg <= -180.0 then deg + 360.0 else deg
  }

  // mkh_thl_compute_output_pct.
  function OutputPct(t: Tuning, reference: real, heading: real): real {
    var error := Wrap180(reference - heading);
    if Abs(error) < t.deadband then 0.0
    else
      var raw := t.kp * error;
      var capped := if raw > t.ceiling then t.ceiling else if raw < -t.ceiling then -t.ceiling else raw;
      if 0.0 < capped < t.floor then t.floor
      else if -t.floor < capped < 0.0 then -t.floor
      else capped
  }

  // ---- The wrap ---------------------------------------------------------------------

  // Whole turns removed by the wrap.
  function Turns(x: real): int {
    var n := if x >= 0.0 then (x / 360.0).Floor else -((-x / 360.0).Floor);
    var deg := x - 360.0 * (n as real);
    if deg > 180.0 then n + 1 else if deg <= -180.0 then n - 1 else n
  }

  // The wrapped angle is congruent to the raw one, in (-180, 180], and no other
  // congruent angle is smaller in magnitude.
  lemma {:induction false} WrapIsShortest(x: real, j: int)
    ensures Wrap180(x) == x - 360.0 * (Turns(x) as real)
    ensures -180.0 < Wrap180(x) <= 180.0
    ensures Abs(Wrap180(x)) <= Abs(x - 360.0 * (j as real))
  {
    var n := Turns(x);
    assert Wrap180(x) == x - 360.0 * (n as real);
    var other := x - 360.0 * (j as real);
    assert other == Wrap180(x) + 360.0 * ((n - j) as real);
    if n - j >= 1 {
      assert other >= Wrap180(x) + 360.0;
    } else if n - j <= -1 {
      assert other <= Wrap180(x) - 360.0;
    }
  }

  // Only one congruent angle lies in the interval.
  lemma {:induction false} WrapIsUnique(x: real, y: real, j: int)
    requires y == x - 360.0 * (j as real) && -180.0 < y <= 180.0
    ensures y == Wrap180(x)
  {
    WrapIsShortest(x, 0);
    var k := Turns(x) - j;
    assert y == Wrap180(x) + 360.0 * (k as real);
    assert -360.0 < 360.0 * (k as real) < 360.0;
    assert k == 0;
  }

  lemma {:induction false} WrapIgnoresTurns(x: real, k: int)
    ensures Wrap180(x + 360.0 * (k as real)) == Wrap180(x)
  {
    WrapIsShortest(x, 0);
    WrapIsUnique(x + 360.0 * (k as real), Wrap180(x), Turns(x) + k);
  }

  // ---- The law -----------------------------------------------------------------------

  lemma {:induction false} ScaledSign(k: real, x: real)
    requires k >= 0.0
    ensures x >= 0.0 ==> k * x >= 0.0
    ensures x <= 0.0 ==> k * x <= 0.0
  {
  }

  lemma {:induction false} ScaledOrder(k: real, x: real, y: real)
    requires k >= 0.0 && x <= y
    ensures k * x <= k * y
  {
  }

  // The law in full, for tunables as the tuning command admits them: nothing inside the dead
  // band and at zero gain; otherwise, on the side of the error, gain times error cut to the
  // ceiling and then, where that is not nothing, raised to the floor.
  lemma {:induction false} OutputExactly(t: Tuning, reference: real, heading: real)
    requires NonNegative(t)
    ensures var error, out := Wrap180(reference - heading), OutputPct(t, reference, heading);
            var wanted := t.kp * Abs(error);
            if Abs(error) < t.deadband || wanted == 0.0 || t.ceiling == 0.0 then out == 0.0
            else
              (out > 0.0 <==> error > 0.0)
              && (wanted <= t.ceiling && wanted >= t.floor ==> Abs(out) == wanted)
              && (wanted > t.ceiling && t.ceiling >= t.floor ==> Abs(out) == t.ceiling)
              && ((wanted < t.floor || t.ceiling < t.floor) ==> Abs(out) == t.floor)
  {
    hide Wrap180;
    var error := Wrap180(reference - heading);
    ScaledSign(t.kp, error);
    assert t.kp * -error == -(t.kp * error);
  }

  // Whole turns of reference or heading do not matter.
  lemma {:induction false} OutputIgnoresTurns(t: Tuning, reference: real, heading: real, j: int, k: int)
    ensures OutputPct(t, reference + 360.0 * (j as real), heading + 360.0 * (k as real))
         == OutputPct(t, reference, heading)
  {
    hide Wrap180;
    WrapIgnoresTurns(reference - heading, j - k);
    assert (reference + 360.0 * (j as real)) - (heading + 360.0 * (k as real))
        == (reference - heading) + 360.0 * ((j - k) as real);
  }

  // The output never opposes the error, is zero inside the dead band, and is bounded
  // by the larger of floor and ceiling.
  lemma {:induction false} OutputIsSafe(t: Tuning, reference: real, heading: real)
    requires NonNegative(t)
    ensures var error, out := Wrap180(reference - heading), OutputPct(t, reference, heading);
            (error > 0.0 ==> out >= 0.0) && (error < 0.0 ==> out <= 0.0) && (error == 0.0 ==> out == 0.0)
            && (Abs(error) < t.deadband ==> out == 0.0)
            && Abs(out) <= (if t.floor > t.ceiling then t.floor else t.ceiling)
            && (out != 0.0 ==> Abs(out) >= (if t.floor < t.ceiling then t.floor else t.ceiling))
  {
    hide Wrap180;
    ScaledSign(t.kp, Wrap180(reference - heading));
  }

  // A larger error of either sign never gets a smaller answer.
  lemma {:induction false} OutputGrowsWithError(t: Tuning, r1: real, h1: real, r2: real, h2: real)
    requires NonNegative(t)
    requires Abs(Wrap180(r1 - h1)) <= Abs(Wrap180(r2 - h2))
    ensures Abs(OutputPct(t, r1, h1)) <= Abs(OutputPct(t, r2, h2))
  {
    hide OutputPct, Wrap180, Magnitude;
    MagnitudeOfOutput(t, r1, h1);
    MagnitudeOfOutput(t, r2, h2);
    MagnitudeGrows(t, Abs(Wrap180(r1 - h1)), Abs(Wrap180(r2 - h2)));
  }

  lemma {:induction false} MagnitudeGrows(t: Tuning, x: real, y: real)
    requires NonNegative(t) && 0.0 <= x <= y
    ensures Magnitude(t, x) <= Magnitude(t, y)
  {
    ScaledOrder(t.kp, x, y);
    ScaledSign(t.kp, x);
    Capped(t, t.kp * x, t.kp * y);
  }

  lemma {:induction false} Capped(t: Tuning, p: real, q: real)
    requires NonNegative(t) && 0.0 <= p <= q
    ensures Limit(t, p) <= Limit(t, q) && Limit(t, q) >= 0.0
  {
  }

  function Limit(t: Tuning, p: real): real {
    var capped := if p > t.ceiling then t.ceiling else p;
    if 0.0 < capped < t.floor then t.floor else capped
  }

  function Magnitude(t: Tuning, error: real): real {
    if error < t.deadband then 0.0
    else Limit(t, t.kp * error)
  }

  lemma {:induction false} MagnitudeOfOutput(t: Tuning, reference: real, heading: real)
    requires NonNegative(t)
    ensures Abs(OutputPct(t, reference, heading)) == Magnitude(t, Abs(Wrap180(reference - heading)))
  {
    hide Wrap180;
    var error := Wrap180(reference - heading);
    ScaledSign(t.kp, error);
    assert t.kp * -error == -(t.kp * error);
  }
}
