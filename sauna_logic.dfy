/** The safety and thermostat predicates of the sauna controller: sensor
    fault, over-temperature, session timeout, hysteresis and HEAT-command
    gating. Every operation is a total function of its arguments. */
module SaunaLogic {
  import opened Floats
  import opened Uint32

  /** Absolute safety limit, in degrees Celsius. */
  const TEMP_MAX_CELSIUS: Float := Num(110.0)
  /** Hard session timeout, in minutes. */
  const SESSION_MAX_MINUTES: u32 := 60
  /** The session timeout in milliseconds. */
  const SESSION_MAX_MS: u32 := SESSION_MAX_MINUTES * 60000
  /** Deadband below the target within which the heater keeps its state. */
  const TEMP_HYSTERESIS: Float := Num(2.0)
  /** The reading the temperature sensor driver reports when disconnected. */
  const SENSOR_DISCONNECTED_C: Float := Num(-127.0)

  // ---------------------------------------------------------------------
  // Sensor fault
  // ---------------------------------------------------------------------

  /** The reading marks a disconnected sensor: `temp <= -127`. */
  predicate IsSensorFault(temp: Float) {
    Le(temp, SENSOR_DISCONNECTED_C)
  }

  /** A reading is a fault exactly when it is minus infinity or a number
      at or below the sentinel; NaN and infinity are not faults. */
  lemma SensorFaultValues(temp: Float)
    ensures IsSensorFault(temp) <==> temp == NegInf || (temp.Num? && temp.v <= -127.0)
    ensures !IsSensorFault(NaN) && !IsSensorFault(PosInf)
  {
  }

  /** Faults are closed downwards: anything below a fault reading is one. */
  lemma SensorFaultDownwardClosed(a: Float, b: Float)
    requires IsSensorFault(b) && Le(a, b)
    ensures IsSensorFault(a)
  {
  }

  /** The boundary cases the unit tests pin down. */
  lemma SensorFaultExamples()
    ensures IsSensorFault(Num(-127.0))
    ensures IsSensorFault(Num(-128.0))
    ensures !IsSensorFault(Num(0.0))
    ensures !IsSensorFault(Num(75.0))
    ensures !IsSensorFault(Num(-10.0))
  {
  }

  // ---------------------------------------------------------------------
  // Over-temperature
  // ---------------------------------------------------------------------

  /** The reading has reached or passed the safety limit: `temp >= 110`. */
  predicate IsOverTemperature(temp: Float) {
    Ge(temp, TEMP_MAX_CELSIUS)
  }

  /** Over-temperature is exactly plus infinity or a number of at least
      110, the limit itself included; NaN never trips it. */
  lemma OverTemperatureValues(temp: Float)
    ensures IsOverTemperature(temp) <==> temp == PosInf || (temp.Num? && temp.v >= 110.0)
    ensures !IsOverTemperature(NaN) && !IsOverTemperature(NegInf)
  {
  }

  /** Over-temperature is closed upwards. */
  lemma OverTemperatureUpwardClosed(a: Float, b: Float)
    requires IsOverTemperature(a) && Le(a, b)
    ensures IsOverTemperature(b)
  {
  }

  /** No reading is both a sensor fault and over the limit. */
  lemma FaultAndOverTemperatureDisjoint(temp: Float)
    ensures !(IsSensorFault(temp) && IsOverTemperature(temp))
  {
  }

  lemma OverTemperatureExamples()
    ensures IsOverTemperature(Num(110.0))
    ensures IsOverTemperature(Num(115.0))
    ensures !IsOverTemperature(Num(109.9))
    ensures !IsOverTemperature(Num(80.0))
  {
  }

  // ---------------------------------------------------------------------
  // Session timeout
  // ---------------------------------------------------------------------

  /** The session started at `startMs` has lasted at least the maximum
      duration by `nowMs`; elapsed time is the wrapping difference of the
      two millisecond-counter readings. */
  predicate IsSessionExpired(startMs: u32, nowMs: u32) {
    Sub(nowMs, startMs) >= SESSION_MAX_MS
  }

  /** Measured against a counter that ticks once per millisecond: `k` ms
      after the start the session is expired exactly when `k` modulo 2^32
      is at least 3,600,000. In particular, for every `k` below 2^32 (about
      49.7 days) the answer is `k >= SESSION_MAX_MS`, wrap-around or not. */
  lemma SessionExpiredAfter(startMs: u32, k: nat)
    ensures IsSessionExpired(startMs, Advance(startMs, k)) <==> k % MODULUS >= 3_600_000
    ensures k < MODULUS ==> (IsSessionExpired(startMs, Advance(startMs, k)) <==> k >= SESSION_MAX_MS)
  {
    ElapsedAfterTicks(startMs, k);
  }

  /** Expiry depends only on the difference of the two readings: shifting
      both by any 32-bit offset leaves the answer unchanged. */
  lemma SessionExpiryShiftInvariant(startMs: u32, nowMs: u32, d: u32)
    ensures IsSessionExpired(Add(startMs, d), Add(nowMs, d)) == IsSessionExpired(startMs, nowMs)
  {
    SubShiftInvariant(nowMs, startMs, d);
  }

  /** A session is never expired at its own start, and is expired exactly
      SESSION_MAX_MS later, even when that reading has wrapped past zero. */
  lemma SessionExpiryBoundaries(startMs: u32)
    ensures !IsSessionExpired(startMs, startMs)
    ensures IsSessionExpired(startMs, Add(startMs, SESSION_MAX_MS))
    ensures !IsSessionExpired(startMs, Add(startMs, SESSION_MAX_MS - 1))
  {
    SubAddCancel(startMs, SESSION_MAX_MS);
    SubAddCancel(startMs, SESSION_MAX_MS - 1);
  }

  lemma SessionExpiryExamples()
    ensures SESSION_MAX_MS == 3_600_000
    ensures !IsSessionExpired(0, 0)
    ensures !IsSessionExpired(0, 30 * 60000)
    ensures IsSessionExpired(0, SESSION_MAX_MS)
    ensures IsSessionExpired(0, SESSION_MAX_MS + 1000)
    ensures !IsSessionExpired(10000, 10000 + 30 * 60000)
    ensures IsSessionExpired(10000, 10000 + SESSION_MAX_MS)
    ensures Sub(0x0000_0010, 0xFFFF_FFF0) == 32
    ensures !IsSessionExpired(0xFFFF_FFF0, 0x0000_0010)
  {
  }

  // ---------------------------------------------------------------------
  // Thermostat hysteresis
  // ---------------------------------------------------------------------

  /** The desired heater state for reading `current`, setpoint `target`
      and present state `active`. An idle heater engages only below the
      deadband, a running one stops at the target, and inside the deadband
      the present state is kept. The desired state is ON only below the
      target, with one exception: a running heater given a NaN reading or
      a NaN target stays ON, since every comparison with NaN is false. */
  function ShouldHeaterEngage(current: Float, target: Float, active: bool): (r: bool)
    ensures r ==> Lt(current, target) || (active && (current == NaN || target == NaN))
  {
    if !active && Lt(current, Minus(target, TEMP_HYSTERESIS)) then
      true
    else if active && Ge(current, target) then
      false
    else
      active
  }

  /** An idle heater engages exactly when the reading is strictly below
      `target - 2`. */
  lemma EngageWhenIdle(current: Float, target: Float)
    ensures ShouldHeaterEngage(current, target, false) <==> Lt(current, Minus(target, TEMP_HYSTERESIS))
  {
  }

  /** A running heater stops exactly when the reading is at or above the
      target. */
  lemma DisengageWhenActive(current: Float, target: Float)
    ensures !ShouldHeaterEngage(current, target, true) <==> Ge(current, target)
  {
  }

  /** In the deadband `target - 2 <= current < target` the heater keeps
      whatever state it has. */
  lemma DeadbandKeepsState(current: Float, target: Float, active: bool)
    requires Ge(current, Minus(target, TEMP_HYSTERESIS)) && Lt(current, target)
    ensures ShouldHeaterEngage(current, target, active) == active
  {
  }

  /** Feeding the decision back in with the same reading changes nothing:
      one decision per reading is stable. */
  lemma EngageIdempotent(current: Float, target: Float, active: bool)
    ensures var r := ShouldHeaterEngage(current, target, active);
            ShouldHeaterEngage(current, target, r) == r
  {
  }

  /** A NaN reading or a NaN target leaves the heater as it is. */
  lemma EngageWithNaN(x: Float, active: bool)
    ensures ShouldHeaterEngage(NaN, x, active) == active
    ensures ShouldHeaterEngage(x, NaN, active) == active
  {
  }

  lemma EngageExamples()
    ensures ShouldHeaterEngage(Num(77.0), Num(80.0), false)
    ensures !ShouldHeaterEngage(Num(79.0), Num(80.0), false)
    ensures !ShouldHeaterEngage(Num(78.0), Num(80.0), false)
    ensures !ShouldHeaterEngage(Num(80.0), Num(80.0), true)
    ensures ShouldHeaterEngage(Num(79.0), Num(80.0), true)
    ensures ShouldHeaterEngage(Num(20.0), Num(80.0), false)
  {
  }

  // ---------------------------------------------------------------------
  // HEAT command gating
  // ---------------------------------------------------------------------

  /** A HEAT command is accepted only while the sensor is healthy. */
  predicate CanAcceptHeatCommand(sensorFault: bool) {
    !sensorFault
  }

  lemma HeatCommandGating(sensorFault: bool)
    ensures CanAcceptHeatCommand(sensorFault) <==> !sensorFault
    ensures CanAcceptHeatCommand(false) && !CanAcceptHeatCommand(true)
  {
  }
}
