/**
 The runtime configuration of main/rc_model.h and its packing into the persisted form
 (exportCurrentConfig and the field decoding of applyPersistedConfig in main/rc_model.cpp).
 */
module RcConfig {
  import opened RcTypes

  datatype ChannelKind = Pwm | Switch

  datatype MixMode = Add | Multiply

  datatype FailsafeMode = Min | Center | Max

  datatype InputType = Direct | Toggle2Pos | Toggle3Pos

  datatype ToggleRange = Unipolar | Bipolar

  datatype ModifierFunction = NoFunction | Reverse | Recenter | Activate | Desactivate

  /** Input ids as in main/control_inputs.h; 0 is None and values above 20 name no input. */
  const NO_INPUT: uint8 := 0

  datatype VirtualInput = VirtualInput(
    used: bool, primary: uint8, secondary: uint8, inputType: InputType, range: ToggleRange, rumble: bool,
    modifier: uint8, modifierFunction: ModifierFunction, deadzone: int, expo: int, name: Name)

  datatype Output = Output(
    used: bool, kind: ChannelKind, pin: uint8, inverted: bool, threshold: int, failsafe: FailsafeMode,
    sourceA: int8, sourceB: int8, sourceC: int8, mix: MixMode,
    weightA: int8, weightB: int8, weightC: int8,
    offsetA: int8, offsetB: int8, offsetC: int8, name: Name)

  const DEFAULT_INPUT :=
    VirtualInput(false, NO_INPUT, NO_INPUT, Direct, Bipolar, false, NO_INPUT, NoFunction, 10, 0, NO_NAME)

  const DEFAULT_OUTPUT :=
    Output(false, Pwm, 0, false, 50, Center, -1, -1, -1, Multiply, 100, 0, 0, 0, 0, 0, NO_NAME)

  type Inputs = s: seq<VirtualInput> | |s| == MAX_VIRTUAL_INPUTS witness seq(16, _ => DEFAULT_INPUT)

  type Outputs = s: seq<Output> | |s| == MAX_OUTPUT_CHANNELS witness seq(24, _ => DEFAULT_OUTPUT)

  function BlankInputs(): (r: Inputs)
    ensures forall i | 0 <= i < MAX_VIRTUAL_INPUTS :: r[i] == DEFAULT_INPUT
  {
    seq(MAX_VIRTUAL_INPUTS, i => DEFAULT_INPUT)
  }

  function BlankOutputs(): (r: Outputs)
    ensures forall i | 0 <= i < MAX_OUTPUT_CHANNELS :: r[i] == DEFAULT_OUTPUT
  {
    seq(MAX_OUTPUT_CHANNELS, i => DEFAULT_OUTPUT)
  }

  function Constrain(x: int, low: int, high: int): (r: int)
    requires low <= high
    ensures low <= r <= high && (low <= x <= high ==> r == x)
  {
    if x < low then low else if x > high then high else x
  }

  function Percent(x: int8): (r: int8)
    ensures -100 <= r <= 100
  {
    Constrain(x, -100, 100)
  }

  function Terminated(name: Name): Name {
    name[NAME_SIZE - 1 := 0]
  }

  // ----- Output channels -----

  function FailsafeCode(mode: FailsafeMode): bv8 {
    match mode
    case Min => 0
    case Center => 1
    case Max => 2
  }

  function Bit(b: bool): bv8 {
    if b then 1 else 0
  }

  function PackMixMode(o: Output): bv8 {
    (Bit(o.mix == Multiply) & 1) | (((FailsafeCode(o.failsafe) + 1) & 3) << 4)
  }

  /** pwmFailsafeModeFromPacked */
  function FailsafeFromPacked(packed: bv8): FailsafeMode {
    if packed == 0 then Center else if packed == 1 then Min else if packed == 2 then Max else Center
  }

  function EncodeChannel(o: Output): PersistedChannel {
    PersistedChannel(
      if o.used then 1 else 0, if o.kind == Switch then 1 else 0, o.pin, if o.inverted then 1 else 0, PackMixMode(o),
      o.sourceA, o.sourceB, o.sourceC, o.weightA, o.weightB, o.weightC, o.offsetA, o.offsetB, o.offsetC,
      Constrain(o.threshold, 0, 100), o.name)
  }

  function DecodeChannel(pc: PersistedChannel): (o: Output)
    ensures o.used && o.pin == pc.pin && o.sourceA == pc.sourceA && o.sourceB == pc.sourceB && o.sourceC == pc.sourceC
  {
    Output(
      true, if pc.kind == 1 then Switch else Pwm, pc.pin, pc.inverted != 0, Constrain(pc.threshold, 0, 100),
      FailsafeFromPacked((pc.mixMode >> 4) & 3), pc.sourceA, pc.sourceB, pc.sourceC,
      if pc.mixMode & 1 == 1 then Multiply else Add,
      Percent(pc.weightA), Percent(pc.weightB), Percent(pc.weightC),
      Percent(pc.offsetA), Percent(pc.offsetB), Percent(pc.offsetC), Terminated(pc.name))
  }

  /** What one trip through the packed form does to a failsafe mode: the codes disagree. */
  function SwapFailsafe(mode: FailsafeMode): FailsafeMode {
    match mode
    case Min => Min
    case Center => Max
    case Max => Center
  }

  function SwapChannel(o: Output): Output {
    o.(failsafe := SwapFailsafe(o.failsafe))
  }

  predicate InPercent(x: int8) {
    -100 <= x <= 100
  }

  /** The ranges the web handlers keep a channel's fields in. */
  predicate ChannelInRange(o: Output) {
    && 0 <= o.threshold <= 100
    && InPercent(o.weightA) && InPercent(o.weightB) && InPercent(o.weightC)
    && InPercent(o.offsetA) && InPercent(o.offsetB) && InPercent(o.offsetC)
    && o.name[NAME_SIZE - 1] == 0
  }

  lemma PackedFieldsUnpack(o: Output)
    ensures FailsafeFromPacked((PackMixMode(o) >> 4) & 3) == SwapFailsafe(o.failsafe)
    ensures (if PackMixMode(o) & 1 == 1 then Multiply else Add) == o.mix
  {}

  /** A used channel comes back with every field but the failsafe mode exactly when its fields are in range. */
  lemma ChannelRoundTrip(o: Output)
    requires o.used
    ensures DecodeChannel(EncodeChannel(o)) == SwapChannel(o) <==> ChannelInRange(o)
  {
    PackedFieldsUnpack(o);
    assert Terminated(o.name) == o.name <==> o.name[NAME_SIZE - 1] == 0;
  }

  lemma SwapTwice(o: Output)
    ensures SwapChannel(SwapChannel(o)) == o && (ChannelInRange(SwapChannel(o)) <==> ChannelInRange(o))
  {}

  // ----- Virtual inputs -----

  function TypeCode(t: InputType): bv8 {
    match t
    case Direct => 0
    case Toggle2Pos => 1
    case Toggle3Pos => 2
  }

  function PackInput(v: VirtualInput): bv8 {
    TypeCode(v.inputType) | (Bit(v.range == Bipolar) << 4) | (Bit(v.rumble) << 5)
  }

  function FunctionCode(f: ModifierFunction): uint8 {
    match f
    case NoFunction => 0
    case Reverse => 1
    case Recenter => 2
    case Activate => 3
    case Desactivate => 4
  }

  function FunctionFromCode(code: uint8): ModifierFunction {
    if code == 1 then Reverse else if code == 2 then Recenter
    else if code == 3 then Activate else if code == 4 then Desactivate else NoFunction
  }

  function EncodeInput(v: VirtualInput): PersistedVirtualInput {
    PersistedVirtualInput(
      if v.used then 1 else 0, v.primary, v.secondary, v.modifier, FunctionCode(v.modifierFunction),
      Constrain(v.deadzone, 0, 95), Constrain(v.expo, 0, 100), PackInput(v), v.name)
  }

  function DecodeInput(pv: PersistedVirtualInput): VirtualInput {
    VirtualInput(
      true, pv.input, pv.inputSecondary,
      if pv.packed & 0x0F == 1 then Toggle2Pos else if pv.packed & 0x0F == 2 then Toggle3Pos else Direct,
      if (pv.packed >> 4) & 1 == 1 then Bipolar else Unipolar, (pv.packed >> 5) & 1 == 1,
      pv.inputModifier, FunctionFromCode(pv.modifierFunction),
      Constrain(pv.deadzone, 0, 95), Constrain(pv.expo, 0, 100), Terminated(pv.name))
  }

  predicate InputInRange(v: VirtualInput) {
    0 <= v.deadzone <= 95 && 0 <= v.expo <= 100 && v.name[NAME_SIZE - 1] == 0
  }

  lemma PackedInputUnpacks(v: VirtualInput)
    ensures var p := PackInput(v);
            && (if p & 0x0F == 1 then Toggle2Pos else if p & 0x0F == 2 then Toggle3Pos else Direct) == v.inputType
            && (if (p >> 4) & 1 == 1 then Bipolar else Unipolar) == v.range
            && ((p >> 5) & 1 == 1) == v.rumble
  {}

  /** A used virtual input comes back unchanged exactly when its fields are in range. */
  lemma InputRoundTrip(v: VirtualInput)
    requires v.used
    ensures DecodeInput(EncodeInput(v)) == v <==> InputInRange(v)
  {
    PackedInputUnpacks(v);
    assert Terminated(v.name) == v.name <==> v.name[NAME_SIZE - 1] == 0;
  }

  // ----- Whole configurations -----

  function EncodeInputs(inputs: Inputs): (r: InputTable)
    ensures forall i | 0 <= i < MAX_VIRTUAL_INPUTS :: r[i] == EncodeInput(inputs[i])
  {
    seq(MAX_VIRTUAL_INPUTS, i requires 0 <= i < MAX_VIRTUAL_INPUTS => EncodeInput(inputs[i]))
  }

  function EncodeChannels(outs: Outputs): (r: ChannelTable)
    ensures forall i | 0 <= i < MAX_OUTPUT_CHANNELS :: r[i] == EncodeChannel(outs[i])
  {
    seq(MAX_OUTPUT_CHANNELS, i requires 0 <= i < MAX_OUTPUT_CHANNELS => EncodeChannel(outs[i]))
  }

  /** exportCurrentConfig */
  function Export(inputs: Inputs, outs: Outputs): PersistedConfig {
    PersistedConfig(CONFIG_MAGIC, CONFIG_VERSION, EncodeInputs(inputs), EncodeChannels(outs))
  }

  function InputSlot(pv: PersistedVirtualInput): VirtualInput {
    if pv.used != 0 then DecodeInput(pv) else DEFAULT_INPUT
  }

  lemma InputSlotRoundTrip(v: VirtualInput)
    ensures InputSlot(EncodeInput(v)) == v <==> CleanInput(v)
  {
    if v.used {
      InputRoundTrip(v);
    }
  }

  /** The virtual inputs applyPersistedConfig installs. */
  function InputsOf(cfg: PersistedConfig): (r: Inputs)
    ensures forall i | 0 <= i < MAX_VIRTUAL_INPUTS :: r[i] == InputSlot(cfg.inputs[i])
  {
    seq(MAX_VIRTUAL_INPUTS, i requires 0 <= i < MAX_VIRTUAL_INPUTS => InputSlot(cfg.inputs[i]))
  }

  predicate CleanInput(v: VirtualInput) {
    if v.used then InputInRange(v) else v == DEFAULT_INPUT
  }

  /** A table whose unused slots are blank, as applying a configuration leaves them. */
  predicate CleanInputs(inputs: Inputs) {
    forall i | 0 <= i < MAX_VIRTUAL_INPUTS :: CleanInput(inputs[i])
  }

  lemma InputsRoundTrip(inputs: Inputs, outs: Outputs)
    ensures InputsOf(Export(inputs, outs)) == inputs <==> CleanInputs(inputs)
  {
    hide CleanInput;
    var back := InputsOf(Export(inputs, outs));
    forall i | 0 <= i < MAX_VIRTUAL_INPUTS
      ensures back[i] == inputs[i] <==> CleanInput(inputs[i])
    {
      InputSlotRoundTrip(inputs[i]);
    }
    if back == inputs {
      assert forall i | 0 <= i < MAX_VIRTUAL_INPUTS :: back[i] == inputs[i];
    }
  }

  // ----- What the persisted bytes mean -----

  /** A percentage cut to -100..100. */
  predicate IsCut(x: int8, stored: int8) {
    if stored < -100 then x == -100 else if stored > 100 then x == 100 else x == stored
  }

  /** A name is the stored one with its last byte cleared. */
  predicate IsTerminated(name: Name, stored: Name) {
    name[NAME_SIZE - 1] == 0 && forall i | 0 <= i < NAME_SIZE - 1 :: name[i] == stored[i]
  }

  /** Channel `o` carries the settings of the persisted one: type 1 is a switch, and bit 0 of the mode byte multiplies. */
  predicate CarriesSettings(o: Output, pc: PersistedChannel) {
    && o.used
    && (o.kind == Switch <==> pc.kind == 1)
    && (o.inverted <==> pc.inverted > 0)
    && (o.mix == Multiply <==> pc.mixMode & 0x01 == 0x01)
    && o.sourceA == pc.sourceA && o.sourceB == pc.sourceB && o.sourceC == pc.sourceC
    && IsCut(o.weightA, pc.weightA) && IsCut(o.weightB, pc.weightB) && IsCut(o.weightC, pc.weightC)
    && IsCut(o.offsetA, pc.offsetA) && IsCut(o.offsetB, pc.offsetB) && IsCut(o.offsetC, pc.offsetC)
    && o.threshold == (if pc.threshold > 100 then 100 else pc.threshold)
    && IsTerminated(o.name, pc.name)
  }

  lemma ChannelCarriesSettings(pc: PersistedChannel)
    ensures CarriesSettings(DecodeChannel(pc), pc) && DecodeChannel(pc).pin == pc.pin
  {}

  /** The failsafe field: 1 is Min, 2 is Max, and 3 as well as the historical 0 is Center. */
  lemma FailsafeField(pc: PersistedChannel)
    ensures pc.mixMode & 0x30 == 0x00 ==> DecodeChannel(pc).failsafe == Center
    ensures pc.mixMode & 0x30 == 0x10 ==> DecodeChannel(pc).failsafe == Min
    ensures pc.mixMode & 0x30 == 0x20 ==> DecodeChannel(pc).failsafe == Max
    ensures pc.mixMode & 0x30 == 0x30 ==> DecodeChannel(pc).failsafe == Center
    ensures pc.mixMode & 0x30 in {0x00, 0x10, 0x20, 0x30}
  {
    FieldBits(pc.mixMode);
  }

  lemma FieldBits(m: bv8)
    ensures m & 0x30 == 0x00 ==> (m >> 4) & 3 == 0
    ensures m & 0x30 == 0x10 ==> (m >> 4) & 3 == 1
    ensures m & 0x30 == 0x20 ==> (m >> 4) & 3 == 2
    ensures m & 0x30 == 0x30 ==> (m >> 4) & 3 == 3
    ensures m & 0x30 == 0x00 || m & 0x30 == 0x10 || m & 0x30 == 0x20 || m & 0x30 == 0x30
  {}

  /**
   A used virtual input carries the settings of its persisted form: the low nibble of the
   packed byte is its type (1 and 2 are toggles), bit 4 makes its range bipolar, bit 5
   enables rumble, and the modifier codes 1 to 4 reverse, recenter, activate and deactivate.
   */
  lemma InputCarriesSettings(cfg: PersistedConfig, i: nat)
    requires i < MAX_VIRTUAL_INPUTS && cfg.inputs[i].used != 0
    ensures var v, pv := InputsOf(cfg)[i], cfg.inputs[i];
            && v.used && v.primary == pv.input && v.secondary == pv.inputSecondary && v.modifier == pv.inputModifier
            && (v.inputType == Toggle2Pos <==> pv.packed & 0x0F == 0x01)
            && (v.inputType == Toggle3Pos <==> pv.packed & 0x0F == 0x02)
            && (v.range == Bipolar <==> pv.packed & 0x10 == 0x10)
            && (v.rumble <==> pv.packed & 0x20 == 0x20)
            && (v.modifierFunction == Reverse <==> pv.modifierFunction == 1)
            && (v.modifierFunction == Recenter <==> pv.modifierFunction == 2)
            && (v.modifierFunction == Activate <==> pv.modifierFunction == 3)
            && (v.modifierFunction == Desactivate <==> pv.modifierFunction == 4)
            && v.deadzone == (if pv.deadzone > 95 then 95 else pv.deadzone)
            && v.expo == (if pv.expo > 100 then 100 else pv.expo)
            && IsTerminated(v.name, pv.name)
  {
    PackedBits(cfg.inputs[i].packed);
  }

  lemma PackedBits(p: bv8)
    ensures (p >> 4) & 1 == 1 <==> p & 0x10 == 0x10
    ensures (p >> 5) & 1 == 1 <==> p & 0x20 == 0x20
  {}

  /** An unused input slot of a configuration leaves the input unused. */
  lemma UnusedInputStaysUnused(cfg: PersistedConfig, i: nat)
    requires i < MAX_VIRTUAL_INPUTS && cfg.inputs[i].used == 0
    ensures !InputsOf(cfg)[i].used && InputsOf(cfg)[i].primary == NO_INPUT
  {}

  /** The bytes a channel is written as: the failsafe field stores Min as 1, Center as 2 and Max as 3. */
  lemma ChannelBytes(o: Output)
    ensures var pc := EncodeChannel(o);
            && pc.used == (if o.used then 1 else 0)
            && pc.kind == (if o.kind == Switch then 1 else 0)
            && pc.inverted == (if o.inverted then 1 else 0)
            && pc.mixMode == (match o.failsafe
                              case Min => if o.mix == Multiply then 0x11 else 0x10
                              case Center => if o.mix == Multiply then 0x21 else 0x20
                              case Max => if o.mix == Multiply then 0x31 else 0x30)
            && pc.pin == o.pin && pc.name == o.name
            && pc.threshold == (if o.threshold < 0 then 0 else if o.threshold > 100 then 100 else o.threshold)
            && pc.sourceA == o.sourceA && pc.sourceB == o.sourceB && pc.sourceC == o.sourceC
            && pc.weightA == o.weightA && pc.weightB == o.weightB && pc.weightC == o.weightC
            && pc.offsetA == o.offsetA && pc.offsetB == o.offsetB && pc.offsetC == o.offsetC
  {}

  /** The bytes a virtual input is written as. */
  lemma InputBytes(v: VirtualInput)
    ensures var pv := EncodeInput(v);
            && pv.used == (if v.used then 1 else 0)
            && pv.input == v.primary && pv.inputSecondary == v.secondary && pv.inputModifier == v.modifier
            && pv.modifierFunction == (match v.modifierFunction
                                       case NoFunction => 0 case Reverse => 1 case Recenter => 2 case Activate => 3 case Desactivate => 4)
            && pv.packed & 0x0F == (match v.inputType case Direct => 0x00 case Toggle2Pos => 0x01 case Toggle3Pos => 0x02)
            && pv.packed & 0x10 == (if v.range == Bipolar then 0x10 else 0x00)
            && pv.packed & 0x20 == (if v.rumble then 0x20 else 0x00)
            && pv.packed & 0xC0 == 0x00
            && pv.deadzone == (if v.deadzone < 0 then 0 else if v.deadzone > 95 then 95 else v.deadzone)
            && pv.expo == (if v.expo < 0 then 0 else if v.expo > 100 then 100 else v.expo)
            && pv.name == v.name
  {}
}
