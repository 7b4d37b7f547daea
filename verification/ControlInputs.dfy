/**
 Controller inputs: the axis normalization of components/bluepad32/parser/uni_hid_parser.c
 and the scalar view of main/control_inputs.cpp. Floats are reals.
 */
module ControlInputs {
  import opened RcTypes

  // ----- Raw HID axis values -----

  const AXIS_RANGE := 1024

  /** Reduction to a 32-bit two's complement integer. */
  function ToInt32(x: int): (r: int)
    ensures -0x8000_0000 <= r < 0x8000_0000
    ensures -0x8000_0000 <= x < 0x8000_0000 ==> r == x
  {
    (x + 0x8000_0000) % 0x1_0000_0000 - 0x8000_0000
  }

  function ToUint32(x: int): (r: int)
    ensures 0 <= r < 0x1_0000_0000
    ensures 0 <= x < 0x1_0000_0000 ==> r == x
  {
    x % 0x1_0000_0000
  }

  /** C's integer division: truncation toward zero. */
  function TruncDiv(a: int, b: int): int
    requires b > 0
  {
    if a >= 0 then a / b else -((-a) / b)
  }

  datatype Globals = Globals(min: int, max: int, reportSize: nat)

  function Pow2(n: nat): (r: nat)
    ensures r >= 1
  {
    if n == 0 then 1 else 2 * Pow2(n - 1)
  }

  /** Some devices report an unsigned maximum that reads back as -1. */
  function LogicalMax(g: Globals): int {
    if g.max == -1 then Pow2(g.reportSize) - 1 else g.max
  }

  function Range(g: Globals): int {
    LogicalMax(g) - g.min + 1
  }

  /** uni_hid_parser_process_axis, with its unsigned subtraction and 32-bit product. */
  function ProcessAxis(g: Globals, value: int): int
    requires Range(g) > 0
  {
    var centered := ToInt32(ToUint32(value - Range(g) / 2 - g.min));
    TruncDiv(ToInt32(centered * AXIS_RANGE), Range(g))
  }

  lemma TruncDivIsMonotone(a: int, b: int, d: int)
    requires d > 0 && a <= b
    ensures TruncDiv(a, d) <= TruncDiv(b, d)
  {
    if a >= 0 {
      DivIsMonotone(a, b, d);
    } else if b < 0 {
      DivIsMonotone(-b, -a, d);
    } else {
      TruncDivSign(a, d);
      TruncDivSign(b, d);
      hide TruncDiv;
    }
  }

  lemma TruncDivSign(a: int, d: int)
    requires d > 0
    ensures if a >= 0 then TruncDiv(a, d) >= 0 else TruncDiv(a, d) <= 0
  {
    DivIsMonotone(0, if a >= 0 then a else -a, d);
  }

  lemma DivIsMonotone(a: int, b: int, d: int)
    requires d > 0 && 0 <= a <= b
    ensures 0 <= a / d <= b / d
  {
    if a / d > b / d {
      assert a == d * (a / d) + a % d && b == d * (b / d) + b % d;
      assert d * (a / d) >= d * (b / d + 1) by {
        ScaleIsMonotone(b / d + 1, a / d, d);
      }
      assert false;
    }
  }

  lemma ScaleIsMonotone(x: int, y: int, d: int)
    requires d >= 0 && x <= y
    ensures d * x <= d * y
  {
    assert d * (y - x) >= 0;
  }

  lemma DivBounds(a: int, d: int, q: int)
    requires d > 0 && 0 <= a
    ensures a <= d * q ==> a / d <= q
    ensures a < d * q ==> a / d < q
  {
    assert a == d * (a / d) + a % d;
    if a / d >= q {
      ScaleIsMonotone(q, a / d, d);
    }
    if a / d >= q + 1 {
      ScaleIsMonotone(q + 1, a / d, d);
      assert d * (q + 1) == d * q + d;
    }
  }

  /** A logical value as the 32 bits the report parser delivers. */
  function Raw(logical: int): int {
    ToUint32(logical)
  }

  lemma UnsignedDifference(logical: int, offset: int)
    requires -0x8000_0000 <= logical - offset < 0x8000_0000
    ensures ToInt32(ToUint32(Raw(logical) - offset)) == logical - offset
  {}

  /** The logical value relative to the middle of its range. */
  function Offset(g: Globals, logical: int): int {
    logical - g.min - Range(g) / 2
  }

  lemma OffsetBounds(g: Globals, logical: int)
    requires 0 < Range(g) <= 0x40_0000
    requires g.min <= logical <= LogicalMax(g)
    ensures -0x20_0000 <= Offset(g, logical) <= 0x1F_FFFF
    ensures -(Range(g) * 512) <= Offset(g, logical) * AXIS_RANGE < Range(g) * 512
  {
    hide LogicalMax;
  }

  lemma TruncDivBounds(a: int, d: int, q: int)
    requires d > 0 && q >= 0 && -(d * q) <= a < d * q
    ensures -q <= TruncDiv(a, d) < q
  {
    if a >= 0 {
      DivBounds(a, d, q);
    } else {
      DivBounds(-a, d, q);
      TruncDivSign(a, d);
    }
  }

  /** Within the widest range whose product still fits 32 bits, the normalized axis is a plain scaling. */
  lemma AxisScales(g: Globals, logical: int)
    requires 0 < Range(g) <= 0x40_0000
    requires g.min <= logical <= LogicalMax(g)
    ensures ProcessAxis(g, Raw(logical)) == TruncDiv(Offset(g, logical) * AXIS_RANGE, Range(g))
    ensures -512 <= ProcessAxis(g, Raw(logical)) <= 511
  {
    OffsetBounds(g, logical);
    hide ToInt32, ToUint32, Raw, TruncDiv, LogicalMax;
    var half := Range(g) / 2;
    UnsignedDifference(logical, half + g.min);
    assert Raw(logical) - half - g.min == Raw(logical) - (half + g.min);
    var product := Offset(g, logical) * AXIS_RANGE;
    assert ToInt32(product) == product;
    assert Range(g) * 512 == 512 * Range(g);
    TruncDivBounds(product, Range(g), 512);
  }

  /** The middle of the range is the neutral axis, and for an even range its lower end is the full negative one. */
  lemma AxisLandmarks(g: Globals)
    requires 0 < Range(g) <= 0x40_0000
    ensures ProcessAxis(g, Raw(g.min + Range(g) / 2)) == 0
    ensures Range(g) % 2 == 0 ==> ProcessAxis(g, Raw(g.min)) == -512
  {
    AxisScales(g, g.min + Range(g) / 2);
    AxisScales(g, g.min);
    ZeroDivides(Range(g));
    ExactDivides(Range(g), 512);
    hide ProcessAxis, LogicalMax, TruncDiv;
    assert Offset(g, g.min + Range(g) / 2) == 0;
    assert Range(g) % 2 == 0 ==> Offset(g, g.min) * AXIS_RANGE == -(Range(g) * 512);
  }

  /** A maximum that reads back as -1 stands for all bits of the field set; any other is itself. */
  lemma MaximumIsUnsigned(g: Globals)
    ensures g.max == -1 ==> LogicalMax(g) + 1 == Pow2(g.reportSize)
    ensures g.max != -1 ==> LogicalMax(g) == g.max
    ensures Pow2(8) == 256 && Pow2(g.reportSize + 1) == 2 * Pow2(g.reportSize)
  {
    assert Pow2(4) == 16;
  }

  /** A byte axis, unsigned or signed, moves four steps per unit: from -512 at its lower end over 0 at its middle to 508. */
  lemma ByteAxisScales(g: Globals, logical: int)
    requires Range(g) == 256 && g.min <= logical <= LogicalMax(g)
    ensures ProcessAxis(g, Raw(logical)) == 4 * (logical - g.min - 128)
  {
    AxisScales(g, logical);
    hide ProcessAxis, LogicalMax, Raw;
    var offset := Offset(g, logical);
    if offset >= 0 {
      QuotientIsExact(256, 4 * offset);
      assert offset * AXIS_RANGE == 256 * (4 * offset);
    } else {
      ExactDivides(256, -4 * offset);
      assert offset * AXIS_RANGE == -(256 * (-4 * offset));
    }
  }

  lemma ZeroDivides(d: int)
    requires d > 0
    ensures TruncDiv(0, d) == 0
  {
    DivBounds(0, d, 0);
    TruncDivSign(0, d);
  }

  lemma ExactDivides(d: int, q: int)
    requires d > 0 && q >= 0
    ensures TruncDiv(-(d * q), d) == -q
  {
    ScaleIsMonotone(0, q, d);
    QuotientIsExact(d, q);
    if d * q == 0 {
      assert q == 0;
      ZeroDivides(d);
    }
  }

  lemma QuotientIsExact(d: int, q: int)
    requires d > 0 && q >= 0
    ensures (d * q) / d == q
  {
    var a := d * q;
    assert a == d * (a / d) + a % d;
    if a / d < q {
      ScaleIsMonotone(a / d + 1, q, d);
    }
  }

  lemma AxisIsMonotone(g: Globals, low: int, high: int)
    requires 0 < Range(g) <= 0x40_0000
    requires g.min <= low <= high <= LogicalMax(g)
    ensures ProcessAxis(g, Raw(low)) <= ProcessAxis(g, Raw(high))
  {
    AxisScales(g, low);
    AxisScales(g, high);
    TruncDivIsMonotone(Offset(g, low) * AXIS_RANGE, Offset(g, high) * AXIS_RANGE, Range(g));
    hide ProcessAxis, TruncDiv;
  }

  // ----- Normalized inputs -----

  /** A controller report. `pressed` holds the ids of the face, shoulder and menu buttons that are down. */
  datatype Pad = Pad(
    axisX: int, axisY: int, axisRX: int, axisRY: int, throttle: int, brake: int, pressed: set<uint8>, dpad: bv8)

  function ConstrainReal(x: real, low: real, high: real): (r: real)
    requires low <= high
    ensures low <= r <= high && (low <= x <= high ==> r == x)
  {
    if x < low then low else if x > high then high else x
  }

  function Abs(x: real): (r: real)
    ensures r >= 0.0 && (r == x || r == -x)
  {
    if x < 0.0 then -x else x
  }

  function OnOff(on: bool): real {
    if on then 1.0 else 0.0
  }

  predicate IsAxis(id: uint8) {
    1 <= id <= 4
  }

  function AxisOf(id: uint8, pad: Pad): int
    requires IsAxis(id)
  {
    if id == 1 then pad.axisX else if id == 2 then pad.axisY else if id == 3 then pad.axisRX else pad.axisRY
  }

  function NormalizeAxis(axis: int): (r: real)
    ensures -1.0 <= r <= 1.0
  {
    ConstrainReal(axis as real / 512.0, -1.0, 1.0)
  }

  function NormalizeTrigger(t: int): (r: real)
    ensures 0.0 <= r <= 1.0
  {
    ConstrainReal(t as real / 1023.0, 0.0, 1.0)
  }

  /** normalizedForInput */
  function NormalizedForInput(id: uint8, pad: Pad): (r: real)
    ensures -1.0 <= r <= 1.0
  {
    if IsAxis(id) then NormalizeAxis(AxisOf(id, pad))
    else if id == 5 then NormalizeTrigger(pad.throttle)
    else if id == 6 then NormalizeTrigger(pad.brake)
    else if 7 <= id <= 16 then OnOff(id in pad.pressed)
    else if id == 17 then OnOff(pad.dpad & 1 != 0)
    else if id == 18 then OnOff(pad.dpad & 2 != 0)
    else if id == 19 then OnOff(pad.dpad & 8 != 0)
    else if id == 20 then OnOff(pad.dpad & 4 != 0)
    else 0.0
  }

  /** isInputActive */
  predicate IsInputActive(id: uint8, pad: Pad) {
    if id == 0 || id > 20 then false
    else if IsAxis(id) then Abs(NormalizedForInput(id, pad)) >= 0.5
    else NormalizedForInput(id, pad) >= 0.5
  }

  // ----- What each input id reads -----

  lemma QuotientScales(x: real, k: real, low: real, high: real)
    requires k > 0.0 && low <= high && low * k <= x <= high * k
    ensures ConstrainReal(x / k, low, high) * k == x
  {
    var q := x / k;
    assert q * k == x;
    if q < low {
      assert (low - q) * k > 0.0;
    }
    if q > high {
      assert (q - high) * k > 0.0;
    }
  }

  /** Each axis id reads its own stick axis, of which 512 steps are full deflection. */
  lemma AxesAreScaled(pad: Pad)
    ensures -512 <= pad.axisX <= 512 ==> NormalizedForInput(1, pad) * 512.0 == pad.axisX as real
    ensures -512 <= pad.axisY <= 512 ==> NormalizedForInput(2, pad) * 512.0 == pad.axisY as real
    ensures -512 <= pad.axisRX <= 512 ==> NormalizedForInput(3, pad) * 512.0 == pad.axisRX as real
    ensures -512 <= pad.axisRY <= 512 ==> NormalizedForInput(4, pad) * 512.0 == pad.axisRY as real
  {
    AxisIsScaled(pad.axisX);
    AxisIsScaled(pad.axisY);
    AxisIsScaled(pad.axisRX);
    AxisIsScaled(pad.axisRY);
    hide NormalizeAxis;
  }

  lemma AxisIsScaled(axis: int)
    ensures -512 <= axis <= 512 ==> NormalizeAxis(axis) * 512.0 == axis as real
  {
    if -512 <= axis <= 512 {
      QuotientScales(axis as real, 512.0, -1.0, 1.0);
    }
  }

  /** The throttle and the brake id read their own triggers, of which 1023 steps are a full press. */
  lemma TriggersAreScaled(pad: Pad)
    ensures 0 <= pad.throttle <= 1023 ==> NormalizedForInput(5, pad) * 1023.0 == pad.throttle as real
    ensures 0 <= pad.brake <= 1023 ==> NormalizedForInput(6, pad) * 1023.0 == pad.brake as real
  {
    TriggerIsScaled(pad.throttle);
    TriggerIsScaled(pad.brake);
    hide NormalizeTrigger;
  }

  lemma TriggerIsScaled(t: int)
    ensures 0 <= t <= 1023 ==> NormalizeTrigger(t) * 1023.0 == t as real
  {
    if 0 <= t <= 1023 {
      QuotientScales(t as real, 1023.0, 0.0, 1.0);
    }
  }

  /** A digital input reads 1 when its button is down and 0 otherwise; the pad's bits are up 1, down 2, right 4, left 8. */
  lemma DigitalsAreOnOff(pad: Pad, id: uint8)
    requires 7 <= id <= 20
    ensures var down :=
              if id == 17 then pad.dpad & 0x01 == 0x01
              else if id == 18 then pad.dpad & 0x02 == 0x02
              else if id == 19 then pad.dpad & 0x08 == 0x08
              else if id == 20 then pad.dpad & 0x04 == 0x04
              else id in pad.pressed;
            NormalizedForInput(id, pad) == (if down then 1.0 else 0.0) && (IsInputActive(id, pad) <==> down)
  {
    DpadBits(pad.dpad);
  }

  lemma DpadBits(d: bv8)
    ensures d & 1 != 0 <==> d & 0x01 == 0x01
    ensures d & 2 != 0 <==> d & 0x02 == 0x02
    ensures d & 4 != 0 <==> d & 0x04 == 0x04
    ensures d & 8 != 0 <==> d & 0x08 == 0x08
  {}

  /** A stick counts as pressed from half deflection on, either way, and a trigger from half its travel on; other ids never do. */
  lemma AnalogsAreActiveAtHalf(pad: Pad)
    ensures IsInputActive(1, pad) <==> pad.axisX <= -256 || pad.axisX >= 256
    ensures IsInputActive(2, pad) <==> pad.axisY <= -256 || pad.axisY >= 256
    ensures IsInputActive(3, pad) <==> pad.axisRX <= -256 || pad.axisRX >= 256
    ensures IsInputActive(4, pad) <==> pad.axisRY <= -256 || pad.axisRY >= 256
    ensures IsInputActive(5, pad) <==> pad.throttle >= 512
    ensures IsInputActive(6, pad) <==> pad.brake >= 512
    ensures forall id: uint8 | id == 0 || id > 20 :: !IsInputActive(id, pad) && NormalizedForInput(id, pad) == 0.0
  {
    HalfAxis(pad.axisX);
    HalfAxis(pad.axisY);
    HalfAxis(pad.axisRX);
    HalfAxis(pad.axisRY);
    HalfTrigger(pad.throttle);
    HalfTrigger(pad.brake);
    hide NormalizeAxis, NormalizeTrigger, Abs;
  }

  lemma HalfAxis(axis: int)
    ensures Abs(NormalizeAxis(axis)) >= 0.5 <==> axis <= -256 || axis >= 256
  {}

  lemma HalfTrigger(t: int)
    ensures NormalizeTrigger(t) >= 0.5 <==> t >= 512
  {}
}
