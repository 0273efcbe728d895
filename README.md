# Sauna controller safety logic in Dafny

This project models the hardware-independent decision logic of an ESP32 sauna
controller. The logic lives in two headers:

- `include/sauna_logic.h`: the safety and thermostat predicates. These are
  sensor-fault detection at the -127 °C "disconnected" sentinel, the inclusive
  110 °C over-temperature cutoff, the 60-minute session timeout measured on the
  wrapping 32-bit millisecond counter, the ON/OFF hysteresis rule with its 2 °C
  deadband, and the gate that refuses HEAT commands while the sensor is faulted.
- `include/http_validation.h`: the validators for a submitted heater state
  (0 or 1) and target temperature (the closed interval [40, 100] °C).

Every function in both headers is a pure expression over its arguments and
`constexpr` constants. The model is therefore made of Dafny functions and lemmas:

- `floats.dfy` (module `Floats`): a `float` is a real number, plus or minus
  infinity, or NaN. `<`, `<=`, `>=` and `-` follow IEEE 754, so every ordered
  comparison with NaN is false.
- `uint32.dfy` (module `Uint32`): `uint32_t` values, with `+` and `-` reduced
  modulo 2^32. `Advance` is a reference model of a free-running millisecond
  counter (`millis()`): `k` single ticks, each wrapping from 0xFFFFFFFF to 0.
  With it, the session timeout is proved correct in terms of real elapsed
  milliseconds, not just in terms of the subtraction formula.
- `sauna_logic.dfy` (module `SaunaLogic`): the five predicates, their constants,
  and the lemmas about them.
- `http_validation.dfy` (module `HttpValidation`): the two validators.
- `target_safety.dfy` (module `TargetSafety`): facts that relate the two headers'
  constants. The headers do not include each other.

`Floats` also carries four small lemmas (`NaNUnordered`, `NotLtIsGe`,
`LtStrictOrder`, `SubPositiveNotAbove`). They check the float encoding against
IEEE 754: NaN is unordered, `<` and `>=` are complementary on ordered values,
`<` is a strict order, and subtracting a positive number never moves a value up.
`NotLtIsGe` also explains the NaN exception below. The only case where a
failed `current < target - 2` does not imply `current >= target - 2` is an
unordered (NaN) operand.

The hysteresis rule makes a guarantee with one exception. `ShouldHeaterEngage`
asks for heat only when the reading is below the target, except when the heater
is already running and the reading or the target is NaN. Every comparison with
NaN is false, so the code falls through to `return active` and a running heater
stays on. The contract of `SaunaLogic.ShouldHeaterEngage` states this exactly.
`SaunaLogic.EngageWithNaN` shows the case.

## Model

| member | source | states |
|---|---|---|
| `Uint32.Add` | include/sauna_logic.h:41 | C++ `uint32_t` addition: the mathematical sum, less 2^32 when it carries out of 32 bits |
| `Uint32.Advance` | include/sauna_logic.h:37-38 | the `millis()` counter read `k` ticks after `s`, each tick wrapping from 0xFFFFFFFF to 0; no contract of its own, characterised by `Uint32.AdvanceIsAdd` |
| `Uint32.Sub` | include/sauna_logic.h:41 | the wrapping difference `a - b` is the unique 32-bit value that, added to `b` with wrap-around, gives back `a`; it is `a - b` when `a >= b` and `2^32 - (b - a)` otherwise |
| `Uint32.SubAddCancel` | include/sauna_logic.h:37-41 | wrapping subtraction undoes wrapping addition of the same value |
| `Uint32.SubShiftInvariant` | include/sauna_logic.h:37-41 | the wrapping difference of two readings is unchanged when both readings are shifted by the same 32-bit offset |
| `Uint32.AdvanceIsAdd` | include/sauna_logic.h:37-41 | `k` ticks of the wrapping millisecond counter move its reading by `k` modulo 2^32 |
| `Uint32.ElapsedAfterTicks` | include/sauna_logic.h:37-41 | the wrapping difference between a reading and the reading `k` ticks later is `k` modulo 2^32, however often the counter wrapped in between |
| `SaunaLogic.IsSensorFault` | include/sauna_logic.h:27-29 | `temp <= SENSOR_DISCONNECTED_C` under IEEE comparison; no contract of its own, characterised by `SaunaLogic.SensorFaultValues` |
| `SaunaLogic.SensorFaultValues` | include/sauna_logic.h:20-29 | a reading is a sensor fault exactly when it is minus infinity or a number at or below -127 (the sentinel itself included); NaN and plus infinity are not faults |
| `SaunaLogic.SensorFaultDownwardClosed` | include/sauna_logic.h:27-29 | every reading at or below a fault reading is also a fault |
| `SaunaLogic.SensorFaultExamples` | test/test_native/test_sauna_logic.cpp:14-33 | -127 and -128 are faults; 0, 75 and -10 are not |
| `SaunaLogic.IsOverTemperature` | include/sauna_logic.h:32-34 | `temp >= TEMP_MAX_CELSIUS` under IEEE comparison; no contract of its own, characterised by `SaunaLogic.OverTemperatureValues` |
| `SaunaLogic.OverTemperatureValues` | include/sauna_logic.h:16-34 | over-temperature holds exactly for plus infinity and numbers of at least 110, the limit itself included; NaN and minus infinity never trip it |
| `SaunaLogic.OverTemperatureUpwardClosed` | include/sauna_logic.h:32-34 | every reading at or above an over-temperature reading is also over temperature |
| `SaunaLogic.FaultAndOverTemperatureDisjoint` | include/sauna_logic.h:27-34 | no reading is both a sensor fault and over temperature |
| `SaunaLogic.OverTemperatureExamples` | test/test_native/test_sauna_logic.cpp:39-53 | 110 and 115 are over temperature; 109.9 and 80 are not |
| `SaunaLogic.IsSessionExpired` | include/sauna_logic.h:40-42 | the wrapping difference `nowMs - startMs` reaches SESSION_MAX_MS; no contract of its own, characterised by `SaunaLogic.SessionExpiredAfter` and `SaunaLogic.SessionExpiryShiftInvariant` |
| `SaunaLogic.SessionExpiredAfter` | include/sauna_logic.h:17-42 | `k` ms after a session start, as counted by the wrapping counter, the session is expired exactly when `k mod 2^32 >= 3,600,000`; so for every `k < 2^32` it is expired iff `k >= SESSION_MAX_MS`, whether or not the counter wrapped |
| `SaunaLogic.SessionExpiryShiftInvariant` | include/sauna_logic.h:36-42 | expiry depends only on the modular difference: shifting start and now by the same 32-bit offset leaves the answer unchanged |
| `SaunaLogic.SessionExpiryBoundaries` | include/sauna_logic.h:40-42 | a session is never expired at its own start; it is expired at exactly start + SESSION_MAX_MS (with wrap-around) and not expired 1 ms earlier |
| `SaunaLogic.SessionExpiryExamples` | test/test_native/test_sauna_logic.cpp:59-96 | SESSION_MAX_MS is 3,600,000; the unit-test cases hold, including start 0xFFFFFFF0 with now 0x10, which is elapsed 32 and not expired |
| `SaunaLogic.ShouldHeaterEngage` | include/sauna_logic.h:44-61 | the thermostat asks for heat only when the reading is strictly below the target, except that a running heater stays on when the reading or the target is NaN |
| `SaunaLogic.EngageWhenIdle` | include/sauna_logic.h:54-56 | an idle heater engages iff the reading is strictly below `target - 2`, so exactly at `target - 2` it stays off |
| `SaunaLogic.DisengageWhenActive` | include/sauna_logic.h:57-60 | a running heater is switched off iff the reading is at or above the target |
| `SaunaLogic.DeadbandKeepsState` | include/sauna_logic.h:53-61 | inside the deadband `target - 2 <= reading < target` the result equals the present heater state |
| `SaunaLogic.EngageIdempotent` | include/sauna_logic.h:53-61 | for a fixed reading and target, applying the rule to its own output returns the same state |
| `SaunaLogic.EngageWithNaN` | include/sauna_logic.h:53-61 | a NaN reading or a NaN target leaves the heater state unchanged |
| `SaunaLogic.EngageExamples` | test/test_native/test_sauna_logic.cpp:102-130 | with target 80: 77 and 20 engage an idle heater, 78 and 79 do not; 80 stops a running heater, 79 keeps it on |
| `SaunaLogic.CanAcceptHeatCommand` | include/sauna_logic.h:67-69 | a HEAT command is acceptable only while the sensor is not faulted; no contract of its own, characterised by `SaunaLogic.HeatCommandGating` |
| `SaunaLogic.HeatCommandGating` | include/sauna_logic.h:67-69 | a HEAT command is accepted iff the sensor is not faulted |
| `HttpValidation.IsValidHeaterState` | include/http_validation.h:22-24 | accepts 0 (OFF) and 1 (HEAT); no contract of its own, characterised by `HttpValidation.ValidHeaterStateIsModeCode` |
| `HttpValidation.ValidHeaterStateIsModeCode` | include/http_validation.h:21-24 | a submitted state is accepted exactly when it is the code of one of the two heater modes (0 = OFF, 1 = HEAT), and distinct modes have distinct codes |
| `HttpValidation.HeaterStateExamples` | test/test_http_validation/test_http_validation.cpp:14-32 | 0 and 1 are valid heater states; 2, -1 and 99 are rejected |
| `HttpValidation.IsValidTargetTemp` | include/http_validation.h:27-29 | `TARGET_TEMP_MIN <= temp <= TARGET_TEMP_MAX` under IEEE comparison; no contract of its own, characterised by `HttpValidation.TargetTempValues` and `HttpValidation.TargetTempConvex` |
| `HttpValidation.TargetTempValues` | include/http_validation.h:14-29 | a target is accepted exactly when it is a number from 40 to 100, both ends included; NaN and both infinities are rejected |
| `HttpValidation.TargetTempConvex` | include/http_validation.h:27-29 | the accepted targets form an interval: anything between two accepted targets is accepted |
| `HttpValidation.TargetTempExamples` | test/test_http_validation/test_http_validation.cpp:38-56 | 40, 70 and 100 are accepted; 39.9 and 100.1 are rejected |
| `TargetSafety.ValidTargetIsSafe` | include/http_validation.h:14-15 | every accepted target is strictly below the 110 °C limit and strictly above the -127 °C sentinel, so it neither trips the cutoff nor reads as a fault |
| `TargetSafety.HeatingOnlyBelowLimit` | include/sauna_logic.h:53-61 | with an accepted target, the thermostat never asks for heat at a reading that is over temperature |

## Left out

- `src/main.cpp` is not part of this model. It is HomeKit characteristic plumbing, GPIO writes, a blocking sensor read and the `setup`/`loop` bootstrap. It does not call the predicates modelled here: it has its own `temp > -100` validity test and its own over-temperature cut, and it has no hysteresis, session timeout or fault gating. So nothing here is claimed about it.
- The headers contain no per-cycle controller and no non-blocking temperature acquisition, and `src/main.cpp` reads the sensor with a blocking call. Neither is modelled.
- Floating point: values are exact reals, so binary rounding is not represented. This includes the rounding of `target - 2.0f` and the finite range of a 32-bit `float`. Signed zero is not distinguished, and IEEE comparisons treat `-0.0` and `0.0` as equal anyway. Every constant in the headers (110, -127, 2, 40, 100) is exactly representable, and the tested values near the limits (109.9, 39.9, 100.1) lie clearly on one side of them.
- `SaunaLogic.ShouldHeaterEngage`: the "never heats at or above target" guarantee is stated with an exception, because a running heater given a NaN reading or target keeps running in the code as written.
- `HttpValidation.IsValidHeaterState` takes an unbounded integer, not a C++ `int`. The predicate accepts only 0 and 1 at any width, so this changes nothing.
- Sensor I/O, the `millis()` clock and GPIO are outside the headers. Readings and timestamps are parameters of the predicates.
