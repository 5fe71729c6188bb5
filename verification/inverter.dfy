/**
  The inverter after the PVWatts model: below its nameplate DC rating it converts DC to AC
  along a part-load efficiency curve; at or above it the output is clipped to the AC rating.
  The source writes the curve as `scale * -0.0162 * lf - 0.0059 / lf + 0.9858`, so only the
  linear term is scaled; the model follows that expression, and the lemmas below say what
  it changes compared with the scaled curve `scale * (-0.0162 * lf - 0.0059 / lf + 0.9858)`.
*/
module InverterModel {
  import opened JavaNumerics

  const NominalEfficiency: real := 0.96
  const ReferenceEfficiency: real := 0.9637

  /** `calcNameplateDCRating`: the DC input at which the AC rating is reached. */
  function CalcNameplateDcRating(acRating: real): (np: real)
    ensures np * NominalEfficiency == acRating
    ensures 0.0 < acRating <==> 0.0 < np
    ensures 0.0 < acRating ==> acRating < np
  {
    acRating / NominalEfficiency
  }

  /** `calcEfficiencyCurveScalingFactor`. */
  function CalcEfficiencyCurveScalingFactor(): (s: real)
    ensures s * ReferenceEfficiency == NominalEfficiency
    ensures 0.9961 < s < 0.9962
  {
    NominalEfficiency / ReferenceEfficiency
  }

  /** `calcPartLoadEfficiency` for a finite, non-zero load fraction.  For a positive load
      both correction terms take efficiency away from 0.9858; at full load the curve as
      written lies just above the reference efficiency, where the scaled curve would give
      the nominal one. */
  function CalcPartLoadEfficiency(dcPower: real, nameplateDcRating: real): (e: real)
    requires dcPower != 0.0 && nameplateDcRating != 0.0
    ensures 0.0 < dcPower / nameplateDcRating ==> e < 0.9858
    ensures dcPower == nameplateDcRating ==> ReferenceEfficiency < e < ReferenceEfficiency + 0.0001
  {
    PositiveQuotient(dcPower, nameplateDcRating);
    var loadFraction := dcPower / nameplateDcRating;
    CalcEfficiencyCurveScalingFactor() * -0.0162 * loadFraction - 0.0059 / loadFraction + 0.9858
  }

  lemma {:induction false} PositiveQuotient(a: real, b: real)
    requires b != 0.0
    ensures 0.0 < a / b ==> 0.0 < 0.0059 / (a / b)
    ensures a == b ==> a / b == 1.0
  {
  }

  /** The efficiency curve with the scaling factor applied to the whole curve. */
  function ScaledEfficiency(loadFraction: real): real
    requires loadFraction != 0.0
  {
    CalcEfficiencyCurveScalingFactor() * (-0.0162 * loadFraction - 0.0059 / loadFraction + 0.9858)
  }

  /** `getAcPower`.  A DC input of exactly zero below a positive nameplate rating makes the
      load fraction zero and the output `0 * -Infinity`, NaN; a negative DC input to an
      inverter rated at zero watts makes the load fraction negative infinity and the output
      negative infinity. */
  function GetAcPower(dcPower: real, acRating: real): (r: ExtendedReal)
    ensures CalcNameplateDcRating(acRating) <= dcPower ==> r == Finite(acRating)
    ensures r.NotANumber? <==> dcPower == 0.0 && 0.0 < acRating
    ensures r.NegativeInfinity? <==> dcPower < 0.0 && acRating == 0.0
    ensures dcPower < CalcNameplateDcRating(acRating) && r.Finite? ==>
      r.value == dcPower * CalcPartLoadEfficiency(dcPower, CalcNameplateDcRating(acRating))
  {
    var nameplateDcRating := CalcNameplateDcRating(acRating);
    if dcPower < nameplateDcRating then
      if dcPower == 0.0 then NotANumber
      else if nameplateDcRating == 0.0 then NegativeInfinity
      else Finite(dcPower * CalcPartLoadEfficiency(dcPower, nameplateDcRating))
    else Finite(acRating)
  }

  /** Every input at or above the nameplate rating gives the same output, the AC rating. */
  lemma {:induction false} ClippedAboveNameplate(d1: real, d2: real, acRating: real)
    requires CalcNameplateDcRating(acRating) <= d1 && CalcNameplateDcRating(acRating) <= d2
    ensures GetAcPower(d1, acRating) == GetAcPower(d2, acRating) == Finite(acRating)
  {
  }

  /** The curve as written differs from the scaled curve by the unscaled share of its
      constant and reciprocal terms. */
  lemma {:induction false} OnlyLinearTermScaled(dcPower: real, nameplateDcRating: real)
    requires dcPower != 0.0 && nameplateDcRating != 0.0
    ensures var lf := dcPower / nameplateDcRating;
      CalcPartLoadEfficiency(dcPower, nameplateDcRating) - ScaledEfficiency(lf)
        == (1.0 - CalcEfficiencyCurveScalingFactor()) * (0.9858 - 0.0059 / lf)
  {
    var lf := dcPower / nameplateDcRating;
    var s, q := CalcEfficiencyCurveScalingFactor(), 0.0059 / lf;
    var sl := s * -0.0162 * lf;
    assert ScaledEfficiency(lf) == sl - s * q + s * 0.9858;
    assert (1.0 - s) * (0.9858 - q) == 0.9858 - q - s * 0.9858 + s * q;
  }

  /** With the whole curve scaled, the output at the nameplate rating is exactly the AC
      rating, so that curve meets the clipping level without a jump. */
  lemma {:induction false} ScaledCurveMeetsRating(acRating: real)
    requires 0.0 < acRating
    ensures CalcNameplateDcRating(acRating) * ScaledEfficiency(1.0) == acRating
  {
    var s := CalcEfficiencyCurveScalingFactor();
    assert ScaledEfficiency(1.0) == s * ReferenceEfficiency;
  }

  /** As written, the output just below the nameplate rating exceeds the AC rating, so
      the output drops when the input grows past the nameplate rating. */
  lemma OutputDropsAtNameplate()
    ensures CalcNameplateDcRating(960.0) == 1000.0
    ensures GetAcPower(999.0, 960.0).Finite?
    ensures GetAcPower(999.0, 960.0).value > 962.8
    ensures GetAcPower(1000.0, 960.0) == Finite(960.0)
  {
    var s := CalcEfficiencyCurveScalingFactor();
    var e := CalcPartLoadEfficiency(999.0, 1000.0);
    assert e == s * -0.0162 * 0.999 - 0.0059 / 0.999 + 0.9858;
    assert 0.0059 / 0.999 < 0.005906;
    assert e > 0.9799 - 0.9962 * 0.0162 * 0.999 - 0.000006;
  }

  /** Between zero and the nameplate rating the output grows with the input. */
  lemma {:induction false} MonotoneBelowNameplate(d1: real, d2: real, acRating: real)
    requires 0.0 < d1 < d2 < CalcNameplateDcRating(acRating)
    ensures GetAcPower(d1, acRating).Finite? && GetAcPower(d2, acRating).Finite?
    ensures GetAcPower(d1, acRating).value < GetAcPower(d2, acRating).value
  {
    var np := CalcNameplateDcRating(acRating);
    var c := CalcEfficiencyCurveScalingFactor() * 0.0162;
    OutputBelowNameplate(d1, np, c);
    OutputBelowNameplate(d2, np, c);
    QuadraticIncreasing(d1, d2, np, c);
  }

  lemma {:induction false} QuadraticIncreasing(d1: real, d2: real, np: real, c: real)
    requires 0.0 < d1 < d2 < np
    requires 0.0 < c < 0.0162
    ensures 0.9858 * d1 - c * (d1 * d1) / np < 0.9858 * d2 - c * (d2 * d2) / np
  {
    QuadraticGap(d1, d2, np, c);
    var q1, q2 := d1 * d1, d2 * d2;
    var a, b := c * q2, c * q1;
    assert c * (q2 - q1) == a - b;
    var k := 0.9858 * (d2 - d1);
    assert (d2 - d1) * (0.9858 * np) == np * k;
    DivBelow(a - b, k, np);
    DivSub(a, b, np);
  }

  /** The quadratic term grows by less than the linear one, scaled by `np`. */
  lemma {:induction false} QuadraticGap(d1: real, d2: real, np: real, c: real)
    requires 0.0 < d1 < d2 < np
    requires 0.0 < c < 0.0162
    ensures c * (d2 * d2 - d1 * d1) < (d2 - d1) * (0.9858 * np)
  {
    var dd, sum := d2 - d1, d1 + d2;
    var q1, q2 := d1 * d1, d2 * d2;
    assert q2 - q1 == dd * sum;
    MulLeftMono(sum, c, 0.0162);
    var cs := sum * c;
    assert sum * 0.0162 < 0.0324 * np;
    assert cs < 0.0324 * np;
    MulLeftMono(dd, cs, 0.9858 * np);
    assert c * (q2 - q1) == c * (dd * sum);
    assert c * (dd * sum) == dd * cs;
  }

  lemma {:induction false} DivSub(a: real, b: real, d: real)
    requires d != 0.0
    ensures a / d - b / d == (a - b) / d
  {
  }

  /** Dividing both sides of `x < y * d` by the positive `d`. */
  lemma {:induction false} DivBelow(x: real, y: real, d: real)
    requires 0.0 < d && x < d * y
    ensures x / d < y
  {
    assert x == (x / d) * d;
  }

  /** Below a positive nameplate rating and above zero, the output is the quadratic
      `0.9858 d - c d^2 / np - 0.0059 np`. */
  lemma {:induction false} OutputBelowNameplate(d: real, np: real, c: real)
    requires 0.0 < d < np
    requires c == CalcEfficiencyCurveScalingFactor() * 0.0162
    ensures d * CalcPartLoadEfficiency(d, np) == 0.9858 * d - c * (d * d) / np - 0.0059 * np
  {
    var lf := d / np;
    var s := CalcEfficiencyCurveScalingFactor();
    assert d * (s * -0.0162 * lf) == -(c * (d * d) / np);
    assert d * (0.0059 / lf) == 0.0059 * np;
  }
}
