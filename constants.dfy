/** The two constants of backend/src/shared/constants.ts. */
module Constants {

  /** Target GHG intensity, gCO2e per MJ. */
  const TargetIntensity: real := 89.3368

  /** Energy content of one tonne of fuel, MJ. */
  const EnergyFactor: real := 41000.0
}
