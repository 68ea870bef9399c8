/**
 * The compliance balance formula: the energy in scope is the fuel burnt times the energy
 * factor, and the balance is the gap to the target intensity times that energy. A positive
 * balance is a surplus, a negative one a deficit.
 */
module ComplianceCalculator {
  import opened Constants

  /** Energy in scope, MJ, of a fuel consumption in tonnes. */
  function ComputeEnergy(fuelConsumptionTonnes: real): (energy: real)
    ensures fuelConsumptionTonnes > 0.0 <==> energy > 0.0
    ensures fuelConsumptionTonnes == 0.0 <==> energy == 0.0
  {
    fuelConsumptionTonnes * EnergyFactor
  }

  /**
   * Compliance balance, gCO2eq. For a voyage that burnt fuel, the balance is a surplus exactly
   * when the intensity is below target and a deficit exactly when it is above.
   */
  function ComputeComplianceBalance(actualGhgIntensity: real, fuelConsumptionTonnes: real): (cb: real)
    ensures fuelConsumptionTonnes > 0.0 ==>
      && (cb > 0.0 <==> actualGhgIntensity < TargetIntensity)
      && (cb < 0.0 <==> actualGhgIntensity > TargetIntensity)
  {
    (TargetIntensity - actualGhgIntensity) * ComputeEnergy(fuelConsumptionTonnes)
  }

  /** Energy is linear in the fuel burnt. */
  lemma EnergyAdditive(f1: real, f2: real)
    ensures ComputeEnergy(f1 + f2) == ComputeEnergy(f1) + ComputeEnergy(f2)
    ensures ComputeEnergy(f1) == f1 * 41000.0
  {
  }

  /** A voyage at target has a zero balance whatever it burnt, and one that burnt nothing too. */
  lemma NeutralCases(x: real, f: real)
    ensures ComputeComplianceBalance(TargetIntensity, f) == 0.0
    ensures ComputeComplianceBalance(x, 0.0) == 0.0
  {
  }

  /**
   * The balance of a voyage that burnt fuel determines its intensity: the formula is inverted
   * by dividing by the energy.
   */
  lemma IntensityFromBalance(x: real, f: real)
    requires f != 0.0
    ensures x == TargetIntensity - ComputeComplianceBalance(x, f) / ComputeEnergy(f)
  {
    var e := ComputeEnergy(f);
    assert e != 0.0;
    assert ComputeComplianceBalance(x, f) / e == TargetIntensity - x;
  }

  /** Splitting a voyage's fuel splits its balance. */
  lemma BalanceAdditive(x: real, f1: real, f2: real)
    ensures ComputeComplianceBalance(x, f1 + f2)
         == ComputeComplianceBalance(x, f1) + ComputeComplianceBalance(x, f2)
  {
    EnergyAdditive(f1, f2);
  }
}
