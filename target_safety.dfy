/** How the validated target range sits against the safety thresholds:
    the two headers are independent, and these facts tie their constants
    together. */
module TargetSafety {
  import opened Floats
  import opened SaunaLogic
  import opened HttpValidation

  /** Every accepted target lies strictly below the over-temperature limit
      and strictly above the disconnected-sensor sentinel, so a reading
      equal to an accepted target neither trips the cutoff nor reads as a
      fault. */
  lemma ValidTargetIsSafe(target: Float)
    requires IsValidTargetTemp(target)
    ensures Lt(target, TEMP_MAX_CELSIUS) && Lt(SENSOR_DISCONNECTED_C, target)
    ensures !IsOverTemperature(target) && !IsSensorFault(target)
  {
  }

  /** For an accepted target the whole deadband lies inside the safe band:
      any reading at which the thermostat could call for heat, or keep
      heating, is below the over-temperature limit. */
  lemma HeatingOnlyBelowLimit(current: Float, target: Float, active: bool)
    requires IsValidTargetTemp(target)
    requires ShouldHeaterEngage(current, target, active)
    ensures !IsOverTemperature(current)
  {
  }
}
