/**
 What a direct input and a mixed output amount to, in terms of the controller and the
 configuration: the two inputs of a pair oppose each other, a modifier reverses or gates,
 added sources superpose, multiplied ones scale each other, and full deflection is the end
 of the pulse range.
 */
module SignalLaws {
  import opened RcTypes
  import opened RcConfig
  import opened ControlInputs
  import opened SignalPath

  // ----- Direct inputs -----

  /** The input with no modifier configured. */
  function Unmodified(v: VirtualInput): VirtualInput {
    v.(modifier := NO_INPUT)
  }

  /** The input with its two sides exchanged. */
  function Exchanged(v: VirtualInput): VirtualInput {
    v.(primary := v.secondary, secondary := v.primary)
  }

  /** A used input without a modifier that reads a pair of inputs. */
  predicate IsPair(v: VirtualInput) {
    v.used && v.primary != NO_INPUT && v.secondary != NO_INPUT && v.modifier == NO_INPUT
  }

  /** Deadzone and expo applied to a level. */
  function Shaped(powf: Power, level: real, v: VirtualInput): (r: real)
    ensures -1.0 <= r <= 1.0
  {
    Expo(powf, Deadzone(level, v.deadzone), v.expo)
  }

  lemma ShapedIsOdd(powf: Power, level: real, v: VirtualInput)
    requires GoodPower(powf) && -1.0 <= level <= 1.0
    ensures Shaped(powf, -level, v) == -Shaped(powf, level, v)
  {
    DeadzoneShape(level, v.deadzone);
    DeadzoneIsMonotone(level, level, v.deadzone);
    hide Deadzone, Expo, GoodPower;
    ExpoShape(powf, Deadzone(level, v.deadzone), v.expo);
  }

  lemma ShapedIsMonotone(powf: Power, low: real, high: real, v: VirtualInput)
    requires GoodPower(powf) && -1.0 <= low <= high <= 1.0
    ensures Shaped(powf, low, v) <= Shaped(powf, high, v)
  {
    DeadzoneIsMonotone(low, high, v.deadzone);
    hide Deadzone, Expo, GoodPower;
    ExpoIsMonotone(powf, Deadzone(low, v.deadzone), Deadzone(high, v.deadzone), v.expo);
  }

  lemma ShapedEnds(powf: Power, v: VirtualInput)
    requires GoodPower(powf)
    ensures Shaped(powf, 1.0, v) == 1.0 && Shaped(powf, -1.0, v) == -1.0 && Shaped(powf, 0.0, v) == 0.0
  {
    DeadzoneShape(1.0, v.deadzone);
    DeadzoneShape(0.0, v.deadzone);
    ExpoShape(powf, 0.0, v.expo);
    hide Deadzone, Expo, GoodPower;
  }

  /** The difference of a pair before shaping. */
  function Difference(v: VirtualInput, pad: Pad): (r: real)
    ensures -1.0 <= r <= 1.0
  {
    ConstrainReal(NormalizedForInput(v.primary, pad) - NormalizedForInput(v.secondary, pad), -1.0, 1.0)
  }

  lemma PairIsShapedDifference(powf: Power, v: VirtualInput, pad: Pad)
    requires IsPair(v)
    ensures EvaluateDirect(powf, v, pad) == Shaped(powf, Difference(v, pad), v)
  {
    hide Expo, Deadzone, NormalizedForInput;
  }

  /** Exchanging the two inputs of a pair negates its value. */
  lemma ExchangeNegates(powf: Power, v: VirtualInput, pad: Pad)
    requires GoodPower(powf) && IsPair(v)
    ensures EvaluateDirect(powf, Exchanged(v), pad) == -EvaluateDirect(powf, v, pad)
  {
    PairIsShapedDifference(powf, v, pad);
    PairIsShapedDifference(powf, Exchanged(v), pad);
    DifferenceIsOdd(v, pad);
    hide EvaluateDirect, Difference, GoodPower;
    ShapedIsOdd(powf, Difference(v, pad), v);
    ShapedIgnoresSides(powf, v, Difference(Exchanged(v), pad));
  }

  lemma DifferenceIsOdd(v: VirtualInput, pad: Pad)
    ensures Difference(Exchanged(v), pad) == -Difference(v, pad)
  {
    hide NormalizedForInput;
  }

  lemma ShapedIgnoresSides(powf: Power, v: VirtualInput, level: real)
    ensures Shaped(powf, level, Exchanged(v)) == Shaped(powf, level, v)
  {}

  /** The value never falls when the primary input rises, and never rises when the secondary does. */
  lemma PairIsMonotone(powf: Power, v: VirtualInput, low: Pad, high: Pad)
    requires GoodPower(powf) && IsPair(v)
    requires NormalizedForInput(v.primary, low) <= NormalizedForInput(v.primary, high)
    requires NormalizedForInput(v.secondary, low) >= NormalizedForInput(v.secondary, high)
    ensures EvaluateDirect(powf, v, low) <= EvaluateDirect(powf, v, high)
  {
    PairIsShapedDifference(powf, v, low);
    PairIsShapedDifference(powf, v, high);
    assert Difference(v, low) <= Difference(v, high) by {
      hide NormalizedForInput;
    }
    hide EvaluateDirect, Difference, GoodPower;
    ShapedIsMonotone(powf, Difference(v, low), Difference(v, high), v);
  }

  /** A full press of one input of a pair with the other released is full deflection, and equal presses cancel. */
  lemma PairEnds(powf: Power, v: VirtualInput, pad: Pad)
    requires GoodPower(powf) && IsPair(v)
    ensures var p, s := NormalizedForInput(v.primary, pad), NormalizedForInput(v.secondary, pad);
            && (p == 1.0 && s == 0.0 ==> EvaluateDirect(powf, v, pad) == 1.0)
            && (p == 0.0 && s == 1.0 ==> EvaluateDirect(powf, v, pad) == -1.0)
            && (p == s ==> EvaluateDirect(powf, v, pad) == 0.0)
  {
    PairIsShapedDifference(powf, v, pad);
    ShapedEnds(powf, v);
    hide EvaluateDirect, Shaped, NormalizedForInput, GoodPower;
  }

  /** Throttle against brake: each alone drives one way, whatever the deadzone and expo. */
  lemma ThrottleAgainstBrake(powf: Power, v: VirtualInput, pad: Pad)
    requires GoodPower(powf) && IsPair(v) && v.primary == 5 && v.secondary == 6
    ensures pad.throttle == 1023 && pad.brake == 0 ==> EvaluateDirect(powf, v, pad) == 1.0
    ensures pad.throttle == 0 && pad.brake == 1023 ==> EvaluateDirect(powf, v, pad) == -1.0
  {
    PairEnds(powf, v, pad);
    TriggersAreScaled(pad);
    hide EvaluateDirect, NormalizedForInput, GoodPower;
  }

  /** A single input alone is a pair whose other side is never pressed. */
  lemma SingleIsShaped(powf: Power, v: VirtualInput, pad: Pad)
    requires v.used && v.primary != NO_INPUT && v.secondary == NO_INPUT && v.modifier == NO_INPUT
    ensures EvaluateDirect(powf, v, pad) == Shaped(powf, NormalizedForInput(v.primary, pad), v)
  {
    hide Expo, Deadzone, NormalizedForInput;
  }

  /** Without deadzone and expo a single input is passed on as it is, and a pair as its difference while that is in range. */
  lemma UnshapedIsPassedOn(powf: Power, v: VirtualInput, pad: Pad)
    requires v.used && v.primary != NO_INPUT && v.modifier == NO_INPUT && v.deadzone == 0 && v.expo == 0
    ensures var p, s := NormalizedForInput(v.primary, pad), NormalizedForInput(v.secondary, pad);
            && (v.secondary == NO_INPUT ==> EvaluateDirect(powf, v, pad) == p)
            && (v.secondary != NO_INPUT && -1.0 <= p - s <= 1.0 ==> EvaluateDirect(powf, v, pad) == p - s)
  {
    var p := NormalizedForInput(v.primary, pad);
    hide NormalizedForInput;
    if v.secondary == NO_INPUT {
      SingleIsShaped(powf, v, pad);
      NoShaping(powf, p, v);
    } else {
      PairIsShapedDifference(powf, v, pad);
      NoShaping(powf, Difference(v, pad), v);
    }
    hide EvaluateDirect, Shaped;
  }

  lemma NoShaping(powf: Power, level: real, v: VirtualInput)
    requires -1.0 <= level <= 1.0 && v.deadzone == 0 && v.expo == 0
    ensures Shaped(powf, level, v) == level
  {
    assert Deadzone(level, 0) == level by {
      assert Abs(level) / 1.0 == Abs(level);
    }
  }

  /** An unused input, or one without a primary input, is silent. */
  lemma UnusedInputIsSilent(powf: Power, v: VirtualInput, pad: Pad)
    ensures !v.used || v.primary == NO_INPUT ==> EvaluateDirect(powf, v, pad) == 0.0
  {}

  /**
   A released modifier blocks an Activate input, and a pressed one a Desactivate input; a
   pressed one negates a Reverse input; in every other case the modifier makes no difference.
   */
  lemma ModifierActs(powf: Power, v: VirtualInput, pad: Pad)
    requires GoodPower(powf) && v.modifier != NO_INPUT
    ensures var pressed := IsInputActive(v.modifier, pad);
            var plain := EvaluateDirect(powf, Unmodified(v), pad);
            EvaluateDirect(powf, v, pad) ==
              match v.modifierFunction
              case Activate => if pressed then plain else 0.0
              case Desactivate => if pressed then 0.0 else plain
              case Reverse => if pressed then -plain else plain
              case NoFunction => plain
              case Recenter => plain
  {
    if v.used && v.primary != NO_INPUT && v.modifierFunction == Reverse && IsInputActive(v.modifier, pad) {
      ReverseNegates(powf, v, pad);
    }
    hide Expo, Deadzone, NormalizedForInput, IsInputActive;
  }

  lemma ReverseNegates(powf: Power, v: VirtualInput, pad: Pad)
    requires GoodPower(powf) && v.used && v.primary != NO_INPUT && v.modifier != NO_INPUT
    requires v.modifierFunction == Reverse && IsInputActive(v.modifier, pad)
    ensures EvaluateDirect(powf, v, pad) == -EvaluateDirect(powf, Unmodified(v), pad)
  {
    var level := ConstrainReal(
      NormalizedForInput(v.primary, pad) - (if v.secondary != NO_INPUT then NormalizedForInput(v.secondary, pad) else 0.0), -1.0, 1.0);
    ShapedIsOdd(powf, level, v);
    hide NormalizedForInput, IsInputActive, GoodPower, Expo, Deadzone;
    assert EvaluateDirect(powf, v, pad) == Shaped(powf, -level, v);
    assert EvaluateDirect(powf, Unmodified(v), pad) == Shaped(powf, level, v);
  }

  // ----- The shapes -----

  /** Outside its band the deadzone is linear, from 0 at the band's edge to full deflection, in percent as configured. */
  lemma DeadzoneIsLinear(v: real, percent: int)
    requires 0 <= percent <= 95
    ensures v * 100.0 > percent as real ==> Deadzone(v, percent) * (100 - percent) as real == v * 100.0 - percent as real
    ensures v * 100.0 < -(percent as real) ==> Deadzone(v, percent) * (100 - percent) as real == v * 100.0 + percent as real
    ensures -(percent as real) <= v * 100.0 <= percent as real ==> Deadzone(v, percent) == 0.0
  {
    var dz := percent as real / 100.0;
    var k := 1.0 - dz;
    assert dz * 100.0 == percent as real && k * 100.0 == (100 - percent) as real && k > 0.0;
    DeadzoneIsMagnitude(v, percent);
    if Abs(v) > dz {
      var q := (Abs(v) - dz) / k;
      assert q * k == Abs(v) - dz;
      assert q * (k * 100.0) == (q * k) * 100.0;
    }
    hide Deadzone;
  }

  /** A band beyond 95 percent counts as 95, and a negative one as none. */
  lemma DeadzoneIsCut(v: real, percent: int)
    ensures percent > 95 ==> Deadzone(v, percent) == Deadzone(v, 95)
    ensures percent < 0 ==> Deadzone(v, percent) == Deadzone(v, 0)
  {}

  /** Expo 50 squares the deflection and 100 cubes it, keeping its sign; in between the library's power applies, and 0 is linear. */
  lemma ExpoIsPower(powf: Power, v: real, percent: int)
    requires GoodPower(powf) && -1.0 <= v <= 1.0
    ensures var a := Abs(v);
            var size :=
              if percent <= 0 then a
              else if percent == 50 then a * a
              else if percent >= 100 then a * a * a
              else powf(percent, a);
            Expo(powf, v, percent) == if v < 0.0 then -size else size
  {
    var e := if percent >= 100 then 100 else percent;
    if e > 0 {
      RaiseIsMonotone(powf, e, Abs(v), 1.0);
    }
    hide GoodPower;
  }

  // ----- Added sources -----

  /** The levels with that of one source changed by `d`. */
  function Bumped(levels: Levels, source: int8, d: real): Levels
    requires 0 <= source < MAX_VIRTUAL_INPUTS
  {
    levels[source := levels[source] + d]
  }

  predicate Interior(x: real) {
    -1.0 < x < 1.0
  }

  /** The output's first source is read by no other term. */
  predicate FirstIsAlone(o: Output) {
    o.used && !o.inverted && 0 <= o.sourceA < MAX_VIRTUAL_INPUTS && o.sourceB != o.sourceA && o.sourceC != o.sourceA
  }

  /**
   Added sources superpose: as long as neither end of the range is reached, changing the
   level of one source by `d` changes the signal by `d` times its weight, whatever the
   other sources hold.
   */
  lemma AddedSourcesSuperpose(o: Output, levels: Levels, d: real)
    requires FirstIsAlone(o) && o.mix == Add
    requires Interior(OutputSignal(o, levels)) && Interior(OutputSignal(o, Bumped(levels, o.sourceA, d)))
    ensures OutputSignal(o, Bumped(levels, o.sourceA, d)) - OutputSignal(o, levels) == d * (o.weightA as real / 100.0)
  {
    var after := Bumped(levels, o.sourceA, d);
    WeightedDistributes(levels[o.sourceA], d, o.weightA);
    assert SourceValue(after, o.sourceB) == SourceValue(levels, o.sourceB);
    assert SourceValue(after, o.sourceC) == SourceValue(levels, o.sourceC);
    hide Weighted;
  }

  lemma WeightedDistributes(x: real, d: real, weight: int8)
    ensures Weighted(x + d, weight) == Weighted(x, weight) + d * (weight as real / 100.0)
  {}

  /** With every source at rest an adding output stands at the sum of its offsets. */
  lemma OffsetsAddUp(o: Output, levels: Levels)
    requires o.used && !o.inverted && o.mix == Add
    requires forall i | 0 <= i < MAX_VIRTUAL_INPUTS :: levels[i] == 0.0
    ensures var total := (o.offsetA as int) + (o.offsetB as int) + (o.offsetC as int);
            && (-100 <= total <= 100 ==> OutputSignal(o, levels) * 100.0 == total as real)
            && (total > 100 ==> OutputSignal(o, levels) == 1.0)
            && (total < -100 ==> OutputSignal(o, levels) == -1.0)
  {
    assert Weighted(0.0, o.weightA) == 0.0 && Weighted(0.0, o.weightB) == 0.0 && Weighted(0.0, o.weightC) == 0.0;
    hide Weighted;
  }

  // ----- Multiplied sources -----

  /** The output with its second term left out. */
  function WithoutSecond(o: Output): Output {
    o.(sourceB := -1, offsetB := 0)
  }

  /** A source at rest, without an offset, silences a multiplying output. */
  lemma RestingFactorSilences(o: Output, levels: Levels)
    requires o.used && o.mix == Multiply
    requires 0 <= o.sourceA < MAX_VIRTUAL_INPUTS && levels[o.sourceA] == 0.0 && o.offsetA == 0
    ensures OutputSignal(o, levels) == 0.0
  {
    assert Weighted(0.0, o.weightA) == 0.0;
    var b := Factor(HasTerm(o.sourceB, o.offsetB), Term(levels, o.sourceB, o.weightB, o.offsetB));
    var c := Factor(HasTerm(o.sourceC, o.offsetC), Term(levels, o.sourceC, o.weightC, o.offsetC));
    assert 0.0 * b * c == 0.0;
    hide Weighted, Factor;
  }

  /** Multiplied sources scale one another: short of the ends, scaling one source's level scales the signal alike. */
  lemma MultipliedSourcesScale(o: Output, levels: Levels, k: real)
    requires FirstIsAlone(o) && o.mix == Multiply && o.offsetA == 0
    requires Interior(OutputSignal(o, levels)) && Interior(OutputSignal(o, levels[o.sourceA := k * levels[o.sourceA]]))
    ensures OutputSignal(o, levels[o.sourceA := k * levels[o.sourceA]]) == k * OutputSignal(o, levels)
  {
    var after := levels[o.sourceA := k * levels[o.sourceA]];
    var a := Weighted(levels[o.sourceA], o.weightA);
    var b := Factor(HasTerm(o.sourceB, o.offsetB), Term(levels, o.sourceB, o.weightB, o.offsetB));
    var c := Factor(HasTerm(o.sourceC, o.offsetC), Term(levels, o.sourceC, o.weightC, o.offsetC));
    WeightedScales(levels[o.sourceA], k, o.weightA);
    assert SourceValue(after, o.sourceB) == SourceValue(levels, o.sourceB);
    assert SourceValue(after, o.sourceC) == SourceValue(levels, o.sourceC);
    ProductScales(k, a, b, c);
    hide Weighted, Factor;
  }

  lemma WeightedScales(x: real, k: real, weight: int8)
    ensures Weighted(k * x, weight) == k * Weighted(x, weight)
  {}

  lemma ProductScales(k: real, a: real, b: real, c: real)
    ensures (k * a) * b * c == k * (a * b * c)
  {}

  /** A second source at full level, weight and no offset, like an absent one, makes no difference to a multiplying output. */
  lemma UnitFactorIsAbsent(o: Output, levels: Levels)
    requires o.mix == Multiply && HasTerm(o.sourceA, o.offsetA)
    requires 0 <= o.sourceB < MAX_VIRTUAL_INPUTS && levels[o.sourceB] == 1.0 && o.weightB == 100 && o.offsetB == 0
    ensures OutputSignal(o, levels) == OutputSignal(WithoutSecond(o), levels)
  {
    assert Weighted(1.0, 100) == 1.0;
    hide Weighted, Factor;
    FactorOne();
  }

  lemma FactorOne()
    ensures forall t :: Factor(false, t) == 1.0 && Factor(true, t) == t
  {}

  /** A multiplying output without any term is silent, and so is any unused output. */
  lemma NoTermIsSilent(o: Output, levels: Levels)
    ensures !o.used ==> OutputSignal(o, levels) == 0.0
    ensures o.sourceA < 0 && o.sourceB < 0 && o.sourceC < 0 && o.offsetA == 0 && o.offsetB == 0 && o.offsetC == 0 ==>
              OutputSignal(o, levels) == 0.0
  {
    assert Weighted(0.0, o.weightA) == 0.0 && Weighted(0.0, o.weightB) == 0.0 && Weighted(0.0, o.weightC) == 0.0;
    hide Weighted;
  }

  // ----- The scale -----

  /** An output that follows one source at full weight, in either mode, shows that source's level. */
  lemma FullWeightShowsLevel(o: Output, source: int8, levels: Levels)
    requires FollowsOneSource(o, source) && o.weightA == 100 && -1.0 <= levels[source] <= 1.0
    ensures OutputSignal(o, levels) == levels[source]
  {
    SignalOfOneSource(o, source, levels);
  }

  /** Full deflection of such a source is the end of the pulse range, and the centre its middle. */
  lemma PulseScale(o: Output, source: int8, levels: Levels)
    requires FollowsOneSource(o, source) && o.weightA == 100
    ensures levels[source] == 1.0 ==> Pulse(o, levels) == 2000
    ensures levels[source] == -1.0 ==> Pulse(o, levels) == 1000
    ensures levels[source] == 0.0 ==> Pulse(o, levels) == 1500
    ensures levels[source] == 0.5 ==> Pulse(o, levels) == 1750
  {
    SignalOfOneSource(o, source, levels);
  }

  /** The pulse is the nearest microsecond to 1500 plus 500 for each full signal. */
  lemma PulseIsNearest(o: Output, levels: Levels)
    ensures -0.5 <= Pulse(o, levels) as real - (1500.0 + 500.0 * OutputSignal(o, levels)) <= 0.5
  {
    LroundBounds(1500.0 + OutputSignal(o, levels) * 500.0);
    hide OutputSignal;
  }

  /** A switch output is on exactly when its signal, either way, reaches its threshold percentage. */
  lemma SwitchThreshold(o: Output, levels: Levels)
    requires 0 <= o.threshold <= 100
    ensures SwitchOn(o, levels) <==>
            OutputSignal(o, levels) * 100.0 >= o.threshold as real || OutputSignal(o, levels) * -100.0 >= o.threshold as real
  {
    hide OutputSignal;
  }

  /** A threshold outside 0..100 counts as the nearer end. */
  lemma ThresholdIsCut(o: Output, levels: Levels)
    ensures o.threshold > 100 ==> (SwitchOn(o, levels) <==> OutputSignal(o, levels) in {-1.0, 1.0})
    ensures o.threshold < 0 ==> SwitchOn(o, levels)
  {
    hide OutputSignal;
  }

  /** Rounding goes to the nearest integer, and away from zero halfway between two. */
  lemma RoundsToNearest(x: real)
    ensures -0.5 <= Lround(x) as real - x <= 0.5
    ensures Lround(x) as real - x == 0.5 ==> x > 0.0
    ensures Lround(x) as real - x == -0.5 ==> x < 0.0
  {}

  /** Timer ticks are the pulse's share of the 20 ms period, rounded down; the written value is that for every pulse in range. */
  lemma TicksAreShareOfPeriod(us: int, width: nat)
    ensures UsToTicks(us, width) * 20000 <= us * Pow2(width) < (UsToTicks(us, width) + 1) * 20000
    ensures PWM_MIN <= us <= PWM_MAX ==> WrittenTicks(us, width) == UsToTicks(us, width)
  {
    hide Pow2;
    var n := Pow2(width) as real;
    var q := us as real / (20000.0 / n);
    assert q * 20000.0 == us as real * n by {
      var k := 20000.0 / n;
      assert q * k == us as real && k * n == 20000.0;
      assert q * (k * n) == (q * k) * n;
    }
    if PWM_MIN <= us <= PWM_MAX {
      TicksAreNotClamped(us, width);
    }
    hide WrittenTicks;
    FloorShares(q, us * Pow2(width));
  }

  /** A pulse outside the servo's limits is written as the nearer one. */
  lemma TicksAreLimited(us: int, width: nat)
    ensures us < 1000 ==> WrittenTicks(us, width) == UsToTicks(1000, width)
    ensures us > 2000 ==> WrittenTicks(us, width) == UsToTicks(2000, width)
  {
    hide UsToTicks;
    if us < 1000 {
      TicksAreMonotone(us, 1000, width);
      TicksAreMonotone(1000, 2000, width);
    }
    if us > 2000 {
      TicksAreMonotone(2000, us, width);
      TicksAreMonotone(1000, 2000, width);
    }
  }

  lemma FloorShares(q: real, product: int)
    requires q * 20000.0 == product as real
    ensures q.Floor * 20000 <= product < (q.Floor + 1) * 20000
  {}

  /** A timer of 16 bits divides the period into 65536 ticks. */
  lemma PeriodIsPowerOfTwo(width: nat)
    ensures Pow2(0) == 1 && Pow2(width + 1) == 2 * Pow2(width) && Pow2(16) == 65536
  {
    assert Pow2(4) == 16;
    assert Pow2(8) == 256;
    assert Pow2(12) == 4096;
  }
}
