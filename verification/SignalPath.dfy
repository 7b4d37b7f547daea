/**
 The signal path from a normalized input to a servo pulse: evaluateVirtualInput,
 evaluateOutputSignal and pwmFromOutput of main/rc_model.cpp and the tick conversion of
 components/ESP32Servo/src/ESP32Servo.cpp. Floats are reals.

 powf is exact for the exponents 2 and 3 (expo 50 and 100); any other exponent is a
 parameter, required only to be monotone on [0, 1] with fixed ends.
 */
module SignalPath {
  import opened RcTypes
  import opened RcConfig
  import opened ControlInputs

  // ----- Shaping -----

  function Deadzone(v: real, percent: int): real {
    var dz := Constrain(percent, 0, 95) as real / 100.0;
    var a := Abs(v);
    if a <= dz then 0.0
    else
      var scaled := (a - dz) / (1.0 - dz);
      if v < 0.0 then -scaled else scaled
  }

  /** `powf(a, 1 + expo / 50)`, given the library function for the exponents other than 2 and 3. */
  type Power = (int, real) -> real

  function Raise(powf: Power, expo: int, a: real): real {
    if expo == 50 then a * a else if expo == 100 then a * a * a else powf(expo, a)
  }

  ghost predicate GoodPower(powf: Power) {
    && (forall e: int | 0 < e <= 100 :: powf(e, 0.0) == 0.0 && powf(e, 1.0) == 1.0)
    && (forall e: int, a: real, b: real | 0 < e <= 100 && 0.0 <= a <= b <= 1.0 :: powf(e, a) <= powf(e, b))
  }

  function Expo(powf: Power, v: real, percent: int): (r: real)
    ensures -1.0 <= r <= 1.0
  {
    var e := Constrain(percent, 0, 100);
    if e <= 0 then ConstrainReal(v, -1.0, 1.0)
    else
      var a := Raise(powf, e, Abs(v));
      ConstrainReal(if v < 0.0 then -a else a, -1.0, 1.0)
  }

  predicate EnabledByModifier(v: VirtualInput, pressed: bool) {
    if v.modifier == NO_INPUT then true
    else if v.modifierFunction == Activate then pressed
    else if v.modifierFunction == Desactivate then !pressed
    else true
  }

  predicate ModifierPressed(v: VirtualInput, pad: Pad) {
    v.modifier != NO_INPUT && IsInputActive(v.modifier, pad)
  }

  /** evaluateVirtualInput for a connected controller */
  function EvaluateDirect(powf: Power, v: VirtualInput, pad: Pad): (r: real)
    ensures -1.0 <= r <= 1.0
  {
    if !v.used || v.primary == NO_INPUT then 0.0
    else
      var difference := NormalizedForInput(v.primary, pad)
                        - if v.secondary != NO_INPUT then NormalizedForInput(v.secondary, pad) else 0.0;
      var level := ConstrainReal(difference, -1.0, 1.0);
      var signed := if v.modifierFunction == Reverse && ModifierPressed(v, pad) then -level else level;
      if !EnabledByModifier(v, ModifierPressed(v, pad)) then 0.0
      else ConstrainReal(Expo(powf, Deadzone(signed, v.deadzone), v.expo), -1.0, 1.0)
  }

  // ----- Mixing -----

  type Levels = s: seq<real> | |s| == MAX_VIRTUAL_INPUTS witness seq(16, i => 0.0)

  function SourceValue(levels: Levels, s: int8): real {
    if 0 <= s < MAX_VIRTUAL_INPUTS then levels[s] else 0.0
  }

  function Weighted(x: real, weight: int8): real {
    x * (weight as real / 100.0)
  }

  function Term(levels: Levels, source: int8, weight: int8, offset: int8): real {
    Weighted(SourceValue(levels, source), weight) + offset as real / 100.0
  }

  predicate HasTerm(source: int8, offset: int8) {
    source >= 0 || offset != 0
  }

  function Factor(present: bool, t: real): real {
    if present then t else 1.0
  }

  /** evaluateOutputSignal */
  function OutputSignal(o: Output, levels: Levels): (r: real)
    ensures -1.0 <= r <= 1.0
  {
    if !o.used then 0.0
    else
      var a := Term(levels, o.sourceA, o.weightA, o.offsetA);
      var b := Term(levels, o.sourceB, o.weightB, o.offsetB);
      var c := Term(levels, o.sourceC, o.weightC, o.offsetC);
      var hasA, hasB, hasC := HasTerm(o.sourceA, o.offsetA), HasTerm(o.sourceB, o.offsetB), HasTerm(o.sourceC, o.offsetC);
      var mixed :=
        if o.mix == Add then a + b + c
        else if hasA || hasB || hasC then Factor(hasA, a) * Factor(hasB, b) * Factor(hasC, c)
        else 0.0;
      var level := ConstrainReal(mixed, -1.0, 1.0);
      if o.inverted then -level else level
  }

  // ----- Pulses -----

  const PWM_MIN := 1000
  const PWM_NEUTRAL := 1500
  const PWM_MAX := 2000

  /** lroundf: to the nearest integer, halves away from zero. */
  function Lround(x: real): int {
    if x >= 0.0 then (x + 0.5).Floor else -((-x + 0.5).Floor)
  }

  /** pwmFromOutput */
  function Pulse(o: Output, levels: Levels): (us: int)
    ensures PWM_MIN <= us <= PWM_MAX
  {
    Constrain(Lround(1500.0 + OutputSignal(o, levels) * 500.0), PWM_MIN, PWM_MAX)
  }

  /** switchFromOutput */
  predicate SwitchOn(o: Output, levels: Levels) {
    Abs(OutputSignal(o, levels)) >= Constrain(o.threshold, 0, 100) as real / 100.0
  }

  /** Servo::usToTicks at the 50 Hz refresh rate, for a timer of `2 ^ width` ticks per 20 ms period. */
  function UsToTicks(us: int, width: nat): int {
    (us as real / (20000.0 / Pow2(width) as real)).Floor
  }

  /** Servo::writeTicks after Servo::writeMicroseconds, on a servo attached with the firmware's limits. */
  function WrittenTicks(us: int, width: nat): int {
    var ticks := UsToTicks(us, width);
    if ticks < UsToTicks(PWM_MIN, width) then UsToTicks(PWM_MIN, width)
    else if ticks > UsToTicks(PWM_MAX, width) then UsToTicks(PWM_MAX, width)
    else ticks
  }

  // ----- Every stage is monotone -----

  lemma ScaleReal(x: real, y: real, k: real)
    requires x <= y && k >= 0.0
    ensures x * k <= y * k
  {
    assert (y - x) * k >= 0.0;
  }

  lemma DivideReal(x: real, y: real, k: real)
    requires x <= y && k > 0.0
    ensures x / k <= y / k
  {}

  lemma ConstrainIsMonotone(x: real, y: real, low: real, high: real)
    requires x <= y && low <= high
    ensures ConstrainReal(x, low, high) <= ConstrainReal(y, low, high)
  {}

  lemma NormalizeIsMonotone(a: int, b: int)
    requires a <= b
    ensures NormalizeAxis(a) <= NormalizeAxis(b)
  {
    DivideReal(a as real, b as real, 512.0);
  }

  /** The deadzone's response to a magnitude. */
  function Magnitude(a: real, dz: real): real
    requires dz < 1.0
  {
    if a <= dz then 0.0 else (a - dz) / (1.0 - dz)
  }

  lemma MagnitudeIsMonotone(a: real, b: real, dz: real)
    requires 0.0 <= a <= b <= 1.0 && 0.0 <= dz < 1.0
    ensures 0.0 <= Magnitude(a, dz) <= Magnitude(b, dz) <= 1.0
  {
    if b > dz {
      DivideReal(b - dz, 1.0 - dz, 1.0 - dz);
      assert (1.0 - dz) / (1.0 - dz) == 1.0;
      DivideReal(0.0, b - dz, 1.0 - dz);
      if a > dz {
        DivideReal(a - dz, b - dz, 1.0 - dz);
        DivideReal(0.0, a - dz, 1.0 - dz);
      }
    }
  }

  lemma DeadzoneIsMagnitude(v: real, percent: int)
    ensures var dz := Constrain(percent, 0, 95) as real / 100.0;
            0.0 <= dz < 1.0 && Deadzone(v, percent) == if v < 0.0 then -Magnitude(-v, dz) else Magnitude(v, dz)
  {}

  lemma DeadzoneIsMonotone(v: real, w: real, percent: int)
    requires -1.0 <= v <= w <= 1.0
    ensures -1.0 <= Deadzone(v, percent) <= Deadzone(w, percent) <= 1.0
  {
    var dz := Constrain(percent, 0, 95) as real / 100.0;
    DeadzoneIsMagnitude(v, percent);
    DeadzoneIsMagnitude(w, percent);
    hide Deadzone, Magnitude;
    if v >= 0.0 {
      MagnitudeIsMonotone(v, w, dz);
    } else if w < 0.0 {
      MagnitudeIsMonotone(-w, -v, dz);
    } else {
      MagnitudeIsMonotone(0.0, -v, dz);
      MagnitudeIsMonotone(0.0, w, dz);
    }
  }

  lemma SquareIsMonotone(a: real, b: real)
    requires 0.0 <= a <= b <= 1.0
    ensures 0.0 <= a * a <= b * b <= b <= 1.0
  {
    ScaleReal(a, b, a);
    ScaleReal(a, b, b);
    ScaleReal(b, 1.0, b);
    assert 0.0 <= a * a && b * a == a * b;
  }

  lemma CubeIsMonotone(a: real, b: real)
    requires 0.0 <= a <= b <= 1.0
    ensures 0.0 <= a * a * a <= b * b * b <= 1.0
  {
    SquareIsMonotone(a, b);
    var p, q := a * a, b * b;
    ScaleReal(0.0, p, a);
    ScaleReal(p, q, a);
    ScaleReal(a, b, q);
    ScaleReal(q, 1.0, b);
    assert q * a == a * q && q * b == b * q;
  }

  lemma RaiseIsMonotone(powf: Power, expo: int, a: real, b: real)
    requires GoodPower(powf) && 0 < expo <= 100 && 0.0 <= a <= b <= 1.0
    ensures 0.0 <= Raise(powf, expo, a) <= Raise(powf, expo, b) <= 1.0
  {
    if expo == 50 {
      SquareIsMonotone(a, b);
    } else if expo == 100 {
      CubeIsMonotone(a, b);
    } else {
      assert powf(expo, 0.0) <= powf(expo, a);
      assert powf(expo, b) <= powf(expo, 1.0);
    }
  }

  lemma ExpoIsMonotone(powf: Power, v: real, w: real, percent: int)
    requires GoodPower(powf) && -1.0 <= v <= w <= 1.0
    ensures Expo(powf, v, percent) <= Expo(powf, w, percent)
  {
    var e := Constrain(percent, 0, 100);
    if e > 0 {
      hide Raise, GoodPower;
      if v >= 0.0 {
        RaiseIsMonotone(powf, e, v, w);
      } else if w < 0.0 {
        RaiseIsMonotone(powf, e, -w, -v);
      } else {
        RaiseIsMonotone(powf, e, 0.0, -v);
        RaiseIsMonotone(powf, e, 0.0, w);
      }
    }
  }

  // ----- The shape of each stage -----

  /** The deadzone is odd, vanishes exactly within its band, and keeps full deflection. */
  lemma DeadzoneShape(v: real, percent: int)
    ensures var dz := Constrain(percent, 0, 95) as real / 100.0;
            && (Deadzone(v, percent) == 0.0 <==> Abs(v) <= dz)
            && Deadzone(-v, percent) == -Deadzone(v, percent)
            && (Deadzone(v, percent) > 0.0 <==> v > dz)
    ensures Deadzone(1.0, percent) == 1.0 && Deadzone(-1.0, percent) == -1.0
  {
    var dz := Constrain(percent, 0, 95) as real / 100.0;
    DeadzoneIsMagnitude(v, percent);
    DeadzoneIsMagnitude(-v, percent);
    DeadzoneIsMagnitude(1.0, percent);
    DeadzoneIsMagnitude(-1.0, percent);
    MagnitudeShape(Abs(v), dz);
    MagnitudeShape(1.0, dz);
    hide Deadzone, Magnitude;
  }

  lemma MagnitudeShape(a: real, dz: real)
    requires 0.0 <= a && 0.0 <= dz < 1.0
    ensures Magnitude(a, dz) > 0.0 <==> a > dz
    ensures Magnitude(a, dz) == 0.0 <==> a <= dz
    ensures Magnitude(1.0, dz) == 1.0
  {
    var k := 1.0 - dz;
    assert k / k == 1.0;
    if a > dz {
      var q := (a - dz) / k;
      assert q * k == a - dz;
      assert q > 0.0;
    }
  }

  /** Within full deflection the expo curve is odd and keeps the centre and both ends. */
  lemma ExpoShape(powf: Power, v: real, percent: int)
    requires GoodPower(powf) && -1.0 <= v <= 1.0
    ensures Expo(powf, -v, percent) == -Expo(powf, v, percent)
    ensures Expo(powf, 0.0, percent) == 0.0 && Expo(powf, 1.0, percent) == 1.0 && Expo(powf, -1.0, percent) == -1.0
  {
    var e := Constrain(percent, 0, 100);
    if e > 0 {
      assert Raise(powf, e, 0.0) == 0.0 && Raise(powf, e, 1.0) == 1.0;
      hide Raise, GoodPower;
      RaiseIsMonotone(powf, e, Abs(v), 1.0);
    }
  }

  /** The channel with its first two source terms exchanged. */
  function SwapAB(o: Output): Output {
    o.(sourceA := o.sourceB, weightA := o.weightB, offsetA := o.offsetB,
       sourceB := o.sourceA, weightB := o.weightA, offsetB := o.offsetA)
  }

  function SwapBC(o: Output): Output {
    o.(sourceB := o.sourceC, weightB := o.weightC, offsetB := o.offsetC,
       sourceC := o.sourceB, weightC := o.weightB, offsetC := o.offsetB)
  }

  /** In both mixing modes the order of the three sources does not matter. */
  lemma SourcesCommute(o: Output, levels: Levels)
    ensures OutputSignal(SwapAB(o), levels) == OutputSignal(o, levels)
    ensures OutputSignal(SwapBC(o), levels) == OutputSignal(o, levels)
  {
    hide Term;
    var a := Term(levels, o.sourceA, o.weightA, o.offsetA);
    var b := Term(levels, o.sourceB, o.weightB, o.offsetB);
    var c := Term(levels, o.sourceC, o.weightC, o.offsetC);
    ProductCommutes(
      Factor(HasTerm(o.sourceA, o.offsetA), a), Factor(HasTerm(o.sourceB, o.offsetB), b), Factor(HasTerm(o.sourceC, o.offsetC), c));
    hide Factor, HasTerm;
  }

  lemma ProductCommutes(x: real, y: real, z: real)
    ensures y * x * z == x * y * z && x * z * y == x * y * z
  {}

  /** A direct input reading one axis, with no secondary input and no modifier. */
  predicate PlainAxisInput(v: VirtualInput) {
    v.used && IsAxis(v.primary) && v.secondary == NO_INPUT && v.modifier == NO_INPUT
  }

  lemma DirectIsMonotone(powf: Power, v: VirtualInput, low: Pad, high: Pad)
    requires GoodPower(powf) && PlainAxisInput(v)
    requires AxisOf(v.primary, low) <= AxisOf(v.primary, high)
    ensures EvaluateDirect(powf, v, low) <= EvaluateDirect(powf, v, high)
  {
    var a, b := NormalizeAxis(AxisOf(v.primary, low)), NormalizeAxis(AxisOf(v.primary, high));
    NormalizeIsMonotone(AxisOf(v.primary, low), AxisOf(v.primary, high));
    DeadzoneIsMonotone(a, b, v.deadzone);
    ExpoIsMonotone(powf, Deadzone(a, v.deadzone), Deadzone(b, v.deadzone), v.expo);
    hide Deadzone, Expo, NormalizeAxis, AxisOf;
    assert EvaluateDirect(powf, v, low) == Expo(powf, Deadzone(a, v.deadzone), v.expo);
    assert EvaluateDirect(powf, v, high) == Expo(powf, Deadzone(b, v.deadzone), v.expo);
  }

  /** An output that follows one source with a non-negative weight and nothing else. */
  predicate FollowsOneSource(o: Output, source: int8) {
    && o.used && !o.inverted && 0 <= source < MAX_VIRTUAL_INPUTS
    && o.sourceA == source && o.weightA >= 0 && o.offsetA == 0
    && o.sourceB == -1 && o.offsetB == 0 && o.sourceC == -1 && o.offsetC == 0
  }

  lemma SignalOfOneSource(o: Output, source: int8, levels: Levels)
    requires FollowsOneSource(o, source)
    ensures OutputSignal(o, levels) == ConstrainReal(Weighted(levels[source], o.weightA), -1.0, 1.0)
  {
    assert Term(levels, -1, o.weightB, 0) == 0.0 && Term(levels, -1, o.weightC, 0) == 0.0;
  }

  lemma LroundIsMonotone(x: real, y: real)
    requires x <= y
    ensures Lround(x) <= Lround(y)
  {}

  lemma SignalIsMonotone(o: Output, source: int8, low: Levels, high: Levels)
    requires FollowsOneSource(o, source) && low[source] <= high[source]
    ensures OutputSignal(o, low) <= OutputSignal(o, high)
  {
    SignalOfOneSource(o, source, low);
    SignalOfOneSource(o, source, high);
    WeightedIsMonotone(low[source], high[source], o.weightA);
    hide OutputSignal, ConstrainReal, Weighted;
    ConstrainIsMonotone(Weighted(low[source], o.weightA), Weighted(high[source], o.weightA), -1.0, 1.0);
  }

  lemma WeightedIsMonotone(x: real, y: real, weight: int8)
    requires x <= y && weight >= 0
    ensures Weighted(x, weight) <= Weighted(y, weight)
  {
    ScaleReal(x, y, weight as real / 100.0);
  }

  lemma PulseIsMonotone(o: Output, source: int8, low: Levels, high: Levels)
    requires FollowsOneSource(o, source) && low[source] <= high[source]
    ensures Pulse(o, low) <= Pulse(o, high)
  {
    SignalIsMonotone(o, source, low, high);
    hide OutputSignal, Lround, FollowsOneSource;
    var x, y := OutputSignal(o, low), OutputSignal(o, high);
    LroundIsMonotone(1500.0 + x * 500.0, 1500.0 + y * 500.0);
  }

  lemma TicksAreMonotone(us: int, vs: int, width: nat)
    requires us <= vs
    ensures UsToTicks(us, width) <= UsToTicks(vs, width)
  {
    hide Pow2;
    var k := 20000.0 / Pow2(width) as real;
    assert k > 0.0;
    DivideReal(us as real, vs as real, k);
  }

  lemma WrittenTicksAreMonotone(us: int, vs: int, width: nat)
    requires us <= vs
    ensures WrittenTicks(us, width) <= WrittenTicks(vs, width)
  {
    hide UsToTicks;
    TicksAreMonotone(us, vs, width);
    TicksAreMonotone(PWM_MIN, PWM_MAX, width);
  }

  /** Inside the pulse range the servo library's limits never bite. */
  lemma TicksAreNotClamped(us: int, width: nat)
    requires PWM_MIN <= us <= PWM_MAX
    ensures WrittenTicks(us, width) == UsToTicks(us, width)
  {
    hide UsToTicks;
    TicksAreMonotone(PWM_MIN, us, width);
    TicksAreMonotone(us, PWM_MAX, width);
  }

  /** Pushing a stick further never shortens the pulse: from the raw HID value to the timer ticks. */
  lemma StickToServoIsMonotone(
    g: Globals, rawLow: int, rawHigh: int, powf: Power, v: VirtualInput, low: Pad, high: Pad,
    o: Output, source: int8, lowLevels: Levels, highLevels: Levels, width: nat)
    requires 0 < Range(g) <= 0x40_0000 && g.min <= rawLow <= rawHigh <= LogicalMax(g)
    requires GoodPower(powf) && PlainAxisInput(v) && FollowsOneSource(o, source)
    requires AxisOf(v.primary, low) == ProcessAxis(g, Raw(rawLow))
    requires AxisOf(v.primary, high) == ProcessAxis(g, Raw(rawHigh))
    requires lowLevels[source] == EvaluateDirect(powf, v, low)
    requires highLevels[source] == EvaluateDirect(powf, v, high)
    ensures Pulse(o, lowLevels) <= Pulse(o, highLevels)
    ensures WrittenTicks(Pulse(o, lowLevels), width) <= WrittenTicks(Pulse(o, highLevels), width)
  {
    AxisIsMonotone(g, rawLow, rawHigh);
    hide *;
    DirectIsMonotone(powf, v, low, high);
    PulseIsMonotone(o, source, lowLevels, highLevels);
    WrittenTicksAreMonotone(Pulse(o, lowLevels), Pulse(o, highLevels), width);
  }

  lemma LroundMirror(x: real)
    requires -500.0 <= x <= 500.0
    ensures 3000 <= Lround(1500.0 + x) + Lround(1500.0 - x) <= 3001
  {}

  lemma LroundBounds(x: real)
    requires 1000.0 <= x <= 2000.0
    ensures 1000 <= Lround(x) <= 2000
  {}

  lemma InvertNegates(o: Output, levels: Levels)
    requires o.used
    ensures OutputSignal(o.(inverted := !o.inverted), levels) == -OutputSignal(o, levels)
  {
    hide Term, Factor;
  }

  /** Inverting an output mirrors its pulse about 1500, up to the rounding of a half. */
  lemma InvertMirrorsPulse(o: Output, levels: Levels)
    requires o.used
    ensures 3000 <= Pulse(o, levels) + Pulse(o.(inverted := !o.inverted), levels) <= 3001
  {
    InvertNegates(o, levels);
    hide OutputSignal, Lround;
    var n, m := OutputSignal(o, levels), OutputSignal(o.(inverted := !o.inverted), levels);
    LroundMirror(n * 500.0);
    LroundBounds(1500.0 + n * 500.0);
    LroundBounds(1500.0 - n * 500.0);
    assert 1500.0 + m * 500.0 == 1500.0 - n * 500.0;
  }
}
