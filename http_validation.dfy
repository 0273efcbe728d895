/** Validation of the heater state and target temperature that a client
    submits, before either reaches the controller. */
module HttpValidation {
  import opened Floats

  /** Lowest settable target, in degrees Celsius. */
  const TARGET_TEMP_MIN: Float := Num(40.0)
  /** Highest settable target, in degrees Celsius. */
  const TARGET_TEMP_MAX: Float := Num(100.0)

  /** The two heater states a client can request. */
  datatype HeaterMode = Off | Heat

  /** The integer that encodes each heater state: 0 for OFF, 1 for HEAT. */
  function ModeCode(m: HeaterMode): int {
    match m
    case Off => 0
    case Heat => 1
  }

  /** A heater state is 0 (OFF) or 1 (HEAT). */
  predicate IsValidHeaterState(state: int) {
    state == 0 || state == 1
  }

  /** A submitted state is accepted exactly when it encodes one of the two
      heater modes, and the mode it encodes is unique. */
  lemma ValidHeaterStateIsModeCode(state: int)
    ensures IsValidHeaterState(state) <==> exists m :: ModeCode(m) == state
    ensures forall m1, m2 :: ModeCode(m1) == ModeCode(m2) ==> m1 == m2
  {
    if state == 0 {
      assert ModeCode(Off) == state;
    } else if state == 1 {
      assert ModeCode(Heat) == state;
    }
  }

  /** The target lies in the closed interval [40, 100]. */
  predicate IsValidTargetTemp(temp: Float) {
    Ge(temp, TARGET_TEMP_MIN) && Le(temp, TARGET_TEMP_MAX)
  }

  /** Exactly the two encodings of OFF and HEAT are accepted. */
  lemma HeaterStateExamples()
    ensures IsValidHeaterState(0) && IsValidHeaterState(1)
    ensures !IsValidHeaterState(2) && !IsValidHeaterState(-1) && !IsValidHeaterState(99)
  {
  }

  /** The accepted targets are exactly the numbers from 40 to 100, both
      ends included; NaN and the infinities are refused. */
  lemma TargetTempValues(temp: Float)
    ensures IsValidTargetTemp(temp) <==> temp.Num? && 40.0 <= temp.v <= 100.0
    ensures !IsValidTargetTemp(NaN) && !IsValidTargetTemp(PosInf) && !IsValidTargetTemp(NegInf)
  {
  }

  /** The accepted set is an interval: anything between two accepted
      targets is accepted. */
  lemma TargetTempConvex(a: Float, b: Float, c: Float)
    requires IsValidTargetTemp(a) && IsValidTargetTemp(b)
    requires Le(a, c) && Le(c, b)
    ensures IsValidTargetTemp(c)
  {
  }

  lemma TargetTempExamples()
    ensures IsValidTargetTemp(Num(40.0))
    ensures IsValidTargetTemp(Num(100.0))
    ensures IsValidTargetTemp(Num(70.0))
    ensures !IsValidTargetTemp(Num(39.9))
    ensures !IsValidTargetTemp(Num(100.1))
  {
  }
}
