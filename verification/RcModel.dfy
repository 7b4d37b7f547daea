/**
 The output model of main/rc_model.cpp: the configuration tables, the toggle memory, the
 servos and pins, and the methods that move them. The array globals of the source are
 fields here; what each method does to the tables is stated through the functions of
 OutputPins, Rollback, Toggles and SignalPath.
 */
module RcModels {
  import opened Wrappers
  import opened RcTypes
  import opened RcConfig
  import opened ControlInputs
  import opened SignalPath
  import opened Toggles
  import opened OutputPins
  import opened Rollback

  datatype Rejection = InvalidFormat | Refused(error: ApplyError)

  /** A servo object: attached to a pin and last told to hold `us` microseconds. */
  datatype Servo = Detached | Attached(pin: int, us: int)

  type Servos = s: seq<Servo> | |s| == MAX_OUTPUT_CHANNELS witness seq(24, i => Detached)

  type Runtime = s: seq<real> | |s| == MAX_OUTPUT_CHANNELS witness seq(24, i => 0.0)

  type ToggleTable = s: seq<Toggle> | |s| == MAX_VIRTUAL_INPUTS
    witness seq(16, i => Toggle(0, 1, false, false, false, false))

  /** pwmFailsafeUs */
  function FailsafeUs(mode: FailsafeMode): int {
    match mode
    case Min => PWM_MIN
    case Center => PWM_NEUTRAL
    case Max => PWM_MAX
  }

  function FailsafeLevel(mode: FailsafeMode): real {
    match mode
    case Min => -1.0
    case Center => 0.0
    case Max => 1.0
  }

  /** The level reported at failsafe is the one whose pulse is the failsafe pulse. */
  lemma FailsafeLevelIsItsPulse(mode: FailsafeMode)
    ensures Lround(1500.0 + FailsafeLevel(mode) * 500.0) == FailsafeUs(mode)
    ensures PWM_MIN <= FailsafeUs(mode) <= PWM_MAX
  {}

  /** From the persisted mode byte to the pulse: at failsafe an accepted servo holds 1000, 2000, or, for the codes 0 and 3, 1500 us. */
  lemma AcceptedFailsafeUs(b: Board, cfg: PersistedConfig, i: nat)
    requires Apply(b, cfg).Applied? && i < MAX_OUTPUT_CHANNELS && cfg.channels[i].used != 0
    ensures var us, field := FailsafeUs(Apply(b, cfg).outs[i].failsafe), cfg.channels[i].mixMode & 0x30;
            && (field == 0x00 ==> us == 1500)
            && (field == 0x10 ==> us == 1000)
            && (field == 0x20 ==> us == 2000)
            && (field == 0x30 ==> us == 1500)
  {
    AcceptedCarriesSettings(b, cfg, i);
    FailsafeField(cfg.channels[i]);
    hide Apply, CarriesSettings, DecodeChannel;
  }

  /** Channel `o` holds its failsafe: the pulse of its mode, or a low pin; an unused channel always does. */
  predicate HoldsFailsafe(o: Output, servo: Servo, level: real, pins: map<int, bool>) {
    o.used ==>
      if o.kind == Pwm then
        (servo.Attached? ==> servo.us == FailsafeUs(o.failsafe)) && level == FailsafeLevel(o.failsafe)
      else o.pin in pins && !pins[o.pin] && level == 0.0
  }

  /** A used PWM channel is attached on its own pin, one the board can attach. */
  predicate Driven(b: Board, o: Output, servo: Servo) {
    o.used && o.kind == Pwm ==> servo.Attached? && servo.pin == o.pin && b.hasPwm(o.pin) && b.attaches(o.pin)
  }

  /** What a configuration fixes for the control loop. */
  datatype Setting = Setting(powf: Power, inputs: Inputs, outs: Outputs)

  /** What the control loop changes: input levels, toggle memory, reported signals, servo pulses and pin levels. */
  datatype Shown = Shown(levels: Levels, toggles: ToggleTable, runtime: Runtime, servos: Servos, pins: map<int, bool>)

  predicate IsPwmOutput(o: Output) {
    o.used && o.kind == Pwm
  }

  predicate IsSwitchOutput(o: Output) {
    o.used && o.kind == Switch
  }

  /** `servo` holds `us` microseconds on the pin `was` is attached to; a detached one stays so. */
  predicate Holds(servo: Servo, was: Servo, us: int) {
    if was.Attached? then servo == Attached(was.pin, us) else servo == was
  }

  /** A fresh packet: one tick of every input, and every output on its mixed signal. */
  predicate PacketShown(c: Setting, before: Shown, pad: Pad, after: Shown) {
    && (forall i | 0 <= i < MAX_VIRTUAL_INPUTS ::
          (after.toggles[i], after.levels[i]) == RuntimeStep(c.powf, c.inputs[i], before.toggles[i], Some(pad)))
    && (forall i | 0 <= i < MAX_OUTPUT_CHANNELS && IsPwmOutput(c.outs[i]) ::
          Holds(after.servos[i], before.servos[i], Pulse(c.outs[i], after.levels)))
    && (forall i | 0 <= i < MAX_OUTPUT_CHANNELS && !IsPwmOutput(c.outs[i]) :: after.servos[i] == before.servos[i])
    && (DistinctPins(c.outs) ==>
          forall i | 0 <= i < MAX_OUTPUT_CHANNELS && IsSwitchOutput(c.outs[i]) ::
            c.outs[i].pin in after.pins && after.pins[c.outs[i].pin] == SwitchOn(c.outs[i], after.levels))
    && (forall i | 0 <= i < MAX_OUTPUT_CHANNELS :: after.runtime[i] == OutputSignal(c.outs[i], after.levels))
  }

  /** A failsafe: every output in its safe position, and the inputs as they were. */
  predicate SafeShown(c: Setting, before: Shown, after: Shown) {
    && after.levels == before.levels && after.toggles == before.toggles
    && (forall i | 0 <= i < MAX_OUTPUT_CHANNELS && IsPwmOutput(c.outs[i]) ::
          Holds(after.servos[i], before.servos[i], FailsafeUs(c.outs[i].failsafe)))
    && (forall i | 0 <= i < MAX_OUTPUT_CHANNELS && !IsPwmOutput(c.outs[i]) :: after.servos[i] == before.servos[i])
    && (forall i | 0 <= i < MAX_OUTPUT_CHANNELS && IsSwitchOutput(c.outs[i]) ::
          c.outs[i].pin in after.pins && !after.pins[c.outs[i].pin])
  }

  /** No controller: every level at rest, every button forgotten, and every position kept. */
  predicate RestShown(before: Shown, after: Shown) {
    && after.runtime == before.runtime && after.servos == before.servos && after.pins == before.pins
    && forall i | 0 <= i < MAX_VIRTUAL_INPUTS ::
         && after.levels[i] == 0.0
         && after.toggles[i] == Toggle(before.toggles[i].pos, before.toggles[i].dir, false, false, false, false)
  }

  class RcModel {
    const board: Board
    const powf: Power
    var inputs: Inputs
    var outs: Outputs
    var levels: Levels
    var runtime: Runtime
    var servos: Servos
    var pwmAttached: Flags
    var pins: map<int, bool>
    var toggles: ToggleTable

    /** The `cfg` blob in NVS; each NVS call draws its outcome from `nvsFails`. */
    const nvsFails: nat -> bool
    var nvsCalls: nat
    var stored: Option<PersistedConfig>

    /** The attach flags mirror the servo objects. */
    ghost predicate InSync()
      reads this`pwmAttached, this`servos
    {
      forall i | 0 <= i < MAX_OUTPUT_CHANNELS :: pwmAttached[i] <==> servos[i].Attached?
    }

    /** Every attached servo belongs to a used channel. */
    ghost predicate AttachedIsUsed()
      reads this`pwmAttached, this`outs
    {
      forall i | 0 <= i < MAX_OUTPUT_CHANNELS :: pwmAttached[i] ==> outs[i].used
    }

    ghost function Configured(): Setting
      reads this`inputs, this`outs
    {
      Setting(powf, inputs, outs)
    }

    ghost function Display(): Shown
      reads this`levels, this`toggles, this`runtime, this`servos, this`pins
    {
      Shown(levels, toggles, runtime, servos, pins)
    }

    ghost predicate AtFailsafe(i: nat)
      reads this`outs, this`servos, this`runtime, this`pins
      requires i < MAX_OUTPUT_CHANNELS
    {
      HoldsFailsafe(outs[i], servos[i], runtime[i], pins)
    }

    /** Every used output is in its safe position. */
    ghost predicate AllAtFailsafe()
      reads this`outs, this`servos, this`runtime, this`pins
    {
      forall i | 0 <= i < MAX_OUTPUT_CHANNELS :: AtFailsafe(i)
    }

    constructor (board: Board, powf: Power, nvsFails: nat -> bool, stored: Option<PersistedConfig>)
      ensures this.board == board && this.powf == powf && this.nvsFails == nvsFails && this.stored == stored
      ensures inputs == BlankInputs() && outs == BlankOutputs()
      ensures InSync() && AttachedIsUsed() && AllAtFailsafe() && nvsCalls == 0 && pins == map[]
      ensures forall i | 0 <= i < MAX_VIRTUAL_INPUTS ::
                levels[i] == 0.0 && toggles[i] == Toggle(0, if i == 0 then 1 else 0, false, false, false, false)
      ensures forall i | 0 <= i < MAX_OUTPUT_CHANNELS :: servos[i] == Detached && runtime[i] == 0.0
    {
      this.board := board;
      this.powf := powf;
      this.nvsFails := nvsFails;
      this.stored := stored;
      nvsCalls := 0;
      inputs := BlankInputs();
      outs := BlankOutputs();
      levels := seq(MAX_VIRTUAL_INPUTS, i => 0.0);
      runtime := seq(MAX_OUTPUT_CHANNELS, i => 0.0);
      servos := seq(MAX_OUTPUT_CHANNELS, i => Detached);
      pwmAttached := seq(MAX_OUTPUT_CHANNELS, i => false);
      pins := map[];
      toggles := seq(MAX_VIRTUAL_INPUTS, i => Toggle(0, if i == 0 then 1 else 0, false, false, false, false));
    }

    // ----- Pins -----

    method OutputPinAlreadyUsed(pin: int, ignoreIndex: int) returns (r: bool)
      ensures r == PinTaken(outs, pin, ignoreIndex)
    {
      for i := 0 to MAX_OUTPUT_CHANNELS
        invariant forall j | 0 <= j < i :: !(j != ignoreIndex && outs[j].used && outs[j].pin == pin)
      {
        if i == ignoreIndex {
          continue;
        }
        if outs[i].used && outs[i].pin == pin {
          return true;
        }
      }
      return false;
    }

    method FirstAvailablePwmPin(ignoreIndex: int) returns (r: Option<uint8>)
      ensures r == FirstCapablePin(board, outs, ignoreIndex, 0)
    {
      var pin := 0;
      while pin <= LAST_PIN
        invariant 0 <= pin <= LAST_PIN + 1
        invariant FirstCapablePin(board, outs, ignoreIndex, pin) == FirstCapablePin(board, outs, ignoreIndex, 0)
      {
        if board.hasPwm(pin) {
          var taken := OutputPinAlreadyUsed(pin, ignoreIndex);
          if !taken {
            return Some(pin);
          }
        }
        pin := pin + 1;
      }
      return None;
    }

    // ----- Hardware of one channel -----

    method ReleaseOutputHardware(index: nat)
      requires index < MAX_OUTPUT_CHANNELS && InSync()
      modifies this`servos, this`pwmAttached
      ensures InSync()
      ensures servos == old(servos)[index := Detached] && pwmAttached == old(pwmAttached)[index := false]
    {
      if pwmAttached[index] {
        servos := servos[index := Detached];
        pwmAttached := pwmAttached[index := false];
      }
    }

    /** One attempt of the attach scan. */
    method TryAttachOnPin(index: nat, pin: uint8) returns (ok: bool)
      requires index < MAX_OUTPUT_CHANNELS && InSync() && !pwmAttached[index]
      modifies this`outs, this`servos, this`pwmAttached
      ensures ok == Usable(board, old(outs), index, pin)
      ensures outs == if ok then old(outs)[index := old(outs)[index].(pin := pin)] else old(outs)
      ensures pwmAttached == old(pwmAttached)[index := ok]
      ensures forall j | 0 <= j < MAX_OUTPUT_CHANNELS && j != index :: servos[j] == old(servos)[j]
      ensures if ok then servos[index].Attached? && servos[index].pin == pin else servos[index] == Detached
    {
      if !board.hasPwm(pin) {
        return false;
      }
      var taken := OutputPinAlreadyUsed(pin, index);
      if taken {
        return false;
      }
      if !board.attaches(pin) {
        return false;
      }
      servos := servos[index := Attached(pin, 0)];
      outs := outs[index := outs[index].(pin := pin)];
      pwmAttached := pwmAttached[index := true];
      return true;
    }

    method SetupOutputHardware(index: nat) returns (ok: bool)
      requires index < MAX_OUTPUT_CHANNELS && InSync() && !pwmAttached[index] && outs[index].used
      modifies this`outs, this`servos, this`pwmAttached, this`pins, this`runtime
      ensures ok == Setup(board, old(outs), index).Some?
      ensures outs == if ok then Setup(board, old(outs), index).value else old(outs)
      ensures InSync() && pwmAttached == old(pwmAttached)[index := ok && old(outs)[index].kind == Pwm]
      ensures forall j | 0 <= j < MAX_OUTPUT_CHANNELS && j != index :: servos[j] == old(servos)[j] && runtime[j] == old(runtime)[j]
      ensures !ok ==> servos[index] == Detached
      ensures ok ==> AtFailsafe(index) && Driven(board, outs[index], servos[index])
      ensures forall p | p in old(pins) && !old(pins)[p] :: p in pins && !pins[p]
    {
      hide PinTaken;
      if outs[index].kind == Pwm {
        var requestedPin := outs[index].pin;
        var attached := TryAttachOnPin(index, requestedPin);
        if !attached {
          attached := ScanPins(index, requestedPin);
          if !attached {
            return false;
          }
        }
      } else {
        var taken := OutputPinAlreadyUsed(outs[index].pin, index);
        if taken {
          return false;
        }
        pins := pins[outs[index].pin := false];
      }
      WriteFailsafeForOutput(index);
      return true;
    }

    /** The fallback scan over pins 0..48, skipping the pin already tried. */
    method ScanPins(index: nat, requestedPin: uint8) returns (attached: bool)
      requires index < MAX_OUTPUT_CHANNELS && InSync() && !pwmAttached[index]
      requires !Usable(board, outs, index, requestedPin)
      modifies this`outs, this`servos, this`pwmAttached
      ensures var pin := ScanUsable(board, old(outs), index, 0);
              && attached == pin.Some?
              && outs == (if attached then old(outs)[index := old(outs)[index].(pin := pin.value)] else old(outs))
              && (if attached then servos[index].Attached? && servos[index].pin == pin.value else servos[index] == Detached)
      ensures pwmAttached == old(pwmAttached)[index := attached]
      ensures forall j | 0 <= j < MAX_OUTPUT_CHANNELS && j != index :: servos[j] == old(servos)[j]
    {
      hide Usable;
      var pin := 0;
      while pin <= LAST_PIN
        invariant 0 <= pin <= LAST_PIN + 1
        invariant outs == old(outs) && servos == old(servos) && pwmAttached == old(pwmAttached)
        invariant ScanUsable(board, outs, index, pin) == ScanUsable(board, outs, index, 0)
      {
        if pin != requestedPin {
          attached := TryAttachOnPin(index, pin);
          if attached {
            return true;
          }
          assert servos == old(servos) && pwmAttached == old(pwmAttached);
        }
        pin := pin + 1;
      }
      return false;
    }

    method WriteFailsafeForOutput(index: nat)
      requires index < MAX_OUTPUT_CHANNELS && InSync()
      modifies this`servos, this`pins, this`runtime
      ensures InSync() && AtFailsafe(index)
      ensures forall j | 0 <= j < MAX_OUTPUT_CHANNELS && j != index :: servos[j] == old(servos)[j] && runtime[j] == old(runtime)[j]
      ensures if IsPwmOutput(outs[index]) then Holds(servos[index], old(servos)[index], FailsafeUs(outs[index].failsafe))
              else servos[index] == old(servos)[index]
      ensures forall p | p in old(pins) && !old(pins)[p] :: p in pins && !pins[p]
    {
      var o := outs[index];
      if !o.used {
        return;
      }
      if o.kind == Pwm {
        var us := FailsafeUs(o.failsafe);
        if pwmAttached[index] {
          servos := servos[index := servos[index].(us := us)];
        }
        if us <= PWM_MIN {
          runtime := runtime[index := -1.0];
        } else if us >= PWM_MAX {
          runtime := runtime[index := 1.0];
        } else {
          runtime := runtime[index := 0.0];
        }
      } else {
        pins := pins[o.pin := false];
        runtime := runtime[index := 0.0];
      }
    }

    method ApplyFailsafeAllOutputs()
      requires InSync()
      modifies this`servos, this`pins, this`runtime
      ensures InSync() && AllAtFailsafe()
      ensures SafeShown(Configured(), old(Display()), Display())
      ensures forall j | 0 <= j < MAX_OUTPUT_CHANNELS :: Driven(board, outs[j], old(servos)[j]) ==> Driven(board, outs[j], servos[j])
    {
      var i := 0;
      while i < MAX_OUTPUT_CHANNELS
        invariant 0 <= i <= MAX_OUTPUT_CHANNELS && InSync()
        invariant forall j | 0 <= j < i :: HoldsFailsafe(outs[j], servos[j], runtime[j], pins)
        invariant forall j | 0 <= j < i ::
                    if IsPwmOutput(outs[j]) then Holds(servos[j], old(servos)[j], FailsafeUs(outs[j].failsafe)) else servos[j] == old(servos)[j]
        invariant forall j | i <= j < MAX_OUTPUT_CHANNELS :: servos[j] == old(servos)[j]
      {
        ghost var before := (servos, runtime, pins);
        WriteFailsafeForOutput(i);
        forall j | 0 <= j < i
          ensures AtFailsafe(j)
        {
          assert HoldsFailsafe(outs[j], before.0[j], before.1[j], before.2);
        }
        i := i + 1;
      }
    }

    // ----- One control tick -----

    method EvaluateVirtualRuntime(ctl: Option<Pad>)
      modifies this`toggles, this`levels
      ensures forall i | 0 <= i < MAX_VIRTUAL_INPUTS ::
                (toggles[i], levels[i]) == RuntimeStep(powf, inputs[i], old(toggles)[i], ctl)
      ensures ctl.None? ==> RestShown(old(Display()), Display())
    {
      hide ToggleStep, EvaluateDirect, IsInputActive;
      var i := 0;
      while i < MAX_VIRTUAL_INPUTS
        invariant 0 <= i <= MAX_VIRTUAL_INPUTS
        invariant forall j | 0 <= j < i :: (toggles[j], levels[j]) == RuntimeStep(powf, inputs[j], old(toggles)[j], ctl)
        invariant forall j | i <= j < MAX_VIRTUAL_INPUTS :: toggles[j] == old(toggles)[j]
      {
        match ctl {
          case None =>
            toggles := toggles[i := Forget(toggles[i])];
            levels := levels[i := 0.0];
          case Some(pad) =>
            if inputs[i].inputType == Toggle2Pos {
              var level := EvaluateToggleVirtualInput(i, pad, 2);
              levels := levels[i := level];
            } else if inputs[i].inputType == Toggle3Pos {
              var level := EvaluateToggleVirtualInput(i, pad, 3);
              levels := levels[i := level];
            } else {
              toggles := toggles[i := Forget(toggles[i]).(directPrev := IsInputActive(inputs[i].primary, pad), dir := 1)];
              levels := levels[i := EvaluateDirect(powf, inputs[i], pad)];
            }
        }
        i := i + 1;
      }
    }

    method EvaluateToggleVirtualInput(index: nat, pad: Pad, positions: int) returns (level: real)
      requires index < MAX_VIRTUAL_INPUTS && (positions == 2 || positions == 3)
      modifies this`toggles
      ensures toggles == old(toggles)[index := toggles[index]]
      ensures (toggles[index], level) == ToggleStep(inputs[index], positions, old(toggles)[index], SampleOf(inputs[index], pad))
    {
      hide IsInputActive, Moved, ToggleValue, EnabledByModifier;
      var v := inputs[index];
      var t := toggles[index];
      var primaryPressed := IsInputActive(v.primary, pad);
      var primaryRise := primaryPressed && !t.primaryPrev;
      var secondaryPressed := v.secondary != NO_INPUT && IsInputActive(v.secondary, pad);
      var secondaryRise := secondaryPressed && !t.secondaryPrev;
      var modifierPressed := v.modifier != NO_INPUT && IsInputActive(v.modifier, pad);
      var modifierRise := modifierPressed && !t.modifierPrev;
      assert SampleOf(v, pad) == Frame(primaryPressed, secondaryPressed, modifierPressed);
      hide SampleOf;
      toggles := toggles[index := t.(primaryPrev := primaryPressed, secondaryPrev := secondaryPressed, modifierPrev := modifierPressed)];
      if !EnabledByModifier(v, modifierPressed) {
        return 0.0;
      }
      MoveToggle(index, positions, primaryRise, secondaryRise, modifierRise);
      return ToggleValue(v, positions, toggles[index].pos);
    }

    /** The position update of an enabled toggle. */
    method MoveToggle(index: nat, positions: int, primaryRise: bool, secondaryRise: bool, modifierRise: bool)
      requires index < MAX_VIRTUAL_INPUTS && (positions == 2 || positions == 3)
      modifies this`toggles
      ensures toggles == old(toggles)[index :=
                Moved(inputs[index], positions, old(toggles)[index], primaryRise, secondaryRise, modifierRise)]
    {
      var v := inputs[index];
      var t := toggles[index];
      if modifierRise && positions == 3 && v.modifierFunction == Recenter {
        t := t.(pos := 1, dir := 1);
      } else if positions == 2 && primaryRise {
        t := t.(pos := if t.pos == 0 then 1 else 0);
      } else if positions == 3 && v.secondary != NO_INPUT {
        if primaryRise && !secondaryRise {
          t := t.(pos := 2);
        } else if secondaryRise && !primaryRise {
          t := t.(pos := 0);
        }
      } else if primaryRise {
        if t.pos <= 0 {
          t := t.(dir := 1);
        } else if t.pos >= 2 {
          t := t.(dir := -1);
        }
        t := t.(pos := Constrain(t.pos + t.dir, 0, 2));
      }
      toggles := toggles[index := t];
    }

    method ProcessGamepadToOutputs(pad: Pad)
      requires InSync()
      modifies this`toggles, this`levels, this`runtime, this`servos, this`pins
      ensures InSync()
      ensures PacketShown(Configured(), old(Display()), pad, Display())
    {
      hide OutputSignal, RuntimeStep, SwitchOn, Pulse;
      EvaluateVirtualRuntime(Some(pad));
      ghost var evaluated := (toggles, levels);
      var i := 0;
      while i < MAX_OUTPUT_CHANNELS
        invariant 0 <= i <= MAX_OUTPUT_CHANNELS && InSync() && (toggles, levels) == evaluated
        invariant forall j | 0 <= j < i :: runtime[j] == OutputSignal(outs[j], levels)
        invariant forall j | 0 <= j < i ::
                    if IsPwmOutput(outs[j]) then Holds(servos[j], old(servos)[j], Pulse(outs[j], levels)) else servos[j] == old(servos)[j]
        invariant forall j | i <= j < MAX_OUTPUT_CHANNELS :: servos[j] == old(servos)[j]
        invariant DistinctPins(outs) ==>
                    forall j | 0 <= j < i && IsSwitchOutput(outs[j]) ::
                      outs[j].pin in pins && pins[outs[j].pin] == SwitchOn(outs[j], levels)
      {
        ShowOutput(i);
        i := i + 1;
      }
    }

    /** The body of the output loop. */
    method ShowOutput(i: nat)
      requires i < MAX_OUTPUT_CHANNELS && InSync()
      modifies this`runtime, this`servos, this`pins
      ensures InSync() && runtime == old(runtime)[i := OutputSignal(outs[i], levels)]
      ensures if IsPwmOutput(outs[i]) then Holds(servos[i], old(servos)[i], Pulse(outs[i], levels)) else servos[i] == old(servos)[i]
      ensures forall j | 0 <= j < MAX_OUTPUT_CHANNELS && j != i :: servos[j] == old(servos)[j]
      ensures pins == if IsSwitchOutput(outs[i]) then old(pins)[outs[i].pin := SwitchOn(outs[i], levels)] else old(pins)
    {
      hide OutputSignal, SwitchOn, Pulse;
      var o := outs[i];
      if !o.used {
        UnusedIsSilent(o, levels);
        runtime := runtime[i := 0.0];
        return;
      }
      runtime := runtime[i := OutputSignal(o, levels)];
      if o.kind == Pwm {
        if pwmAttached[i] {
          servos := servos[i := servos[i].(us := Pulse(o, levels))];
        }
      } else {
        pins := pins[o.pin := SwitchOn(o, levels)];
      }
    }

    // ----- Applying a configuration -----

    /** The rollback closure of applyPersistedConfig. */
    method RestoreOld(oldInputs: Inputs, oldOuts: Outputs, oldPwm: Flags)
      requires InSync() && AttachedIsUsed()
      modifies this`inputs, this`outs, this`servos, this`pwmAttached, this`pins, this`runtime
      ensures InSync() && AttachedIsUsed() && inputs == oldInputs && toggles == old(toggles)
      ensures Restored(outs, pwmAttached) == RestoreAll(board, old(outs), oldOuts, oldPwm)
      ensures forall i | 0 <= i < MAX_OUTPUT_CHANNELS && pwmAttached[i] :: Driven(board, outs[i], servos[i])
    {
      hide RestoreOne, Driven, HoldsFailsafe;
      inputs := oldInputs;
      ghost var flags := NoFlags();
      var i := 0;
      while i < MAX_OUTPUT_CHANNELS
        invariant 0 <= i <= MAX_OUTPUT_CHANNELS && InSync() && AttachedIsUsed() && inputs == oldInputs && toggles == old(toggles)
        invariant forall j | 0 <= j < i :: flags[j] == pwmAttached[j]
        invariant forall j | 0 <= j < i && pwmAttached[j] :: Driven(board, outs[j], servos[j])
        invariant RestoreFrom(board, Restored(outs, flags), oldOuts, oldPwm, i) == RestoreAll(board, old(outs), oldOuts, oldPwm)
      {
        ghost var before := Restored(outs, flags);
        RestoreOneEffect(board, before, oldOuts, oldPwm, i);
        RestoreChannel(i, oldOuts, oldPwm, flags);
        flags := flags[i := pwmAttached[i]];
        assert Restored(outs, flags) == RestoreOne(board, before, oldOuts, oldPwm, i);
        i := i + 1;
      }
      assert flags == pwmAttached;
    }

    /** The body of the rollback loop. */
    method RestoreChannel(i: nat, oldOuts: Outputs, oldPwm: Flags, ghost flags: Flags)
      requires i < MAX_OUTPUT_CHANNELS && InSync() && AttachedIsUsed()
      modifies this`outs, this`servos, this`pwmAttached, this`pins, this`runtime
      ensures InSync() && AttachedIsUsed()
      ensures Restored(outs, flags[i := pwmAttached[i]]) == RestoreOne(board, Restored(old(outs), flags), oldOuts, oldPwm, i)
      ensures pwmAttached == old(pwmAttached)[i := pwmAttached[i]]
      ensures forall j | 0 <= j < MAX_OUTPUT_CHANNELS && j != i :: servos[j] == old(servos)[j]
      ensures pwmAttached[i] ==> Driven(board, outs[i], servos[i])
    {
      hide Setup, Driven, HoldsFailsafe;
      if outs[i].used {
        ReleaseOutputHardware(i);
      }
      outs := outs[i := oldOuts[i]];
      pwmAttached := pwmAttached[i := false];
      if outs[i].used && oldPwm[i] {
        SetupFrame(board, outs, i);
        var ok := SetupOutputHardware(i);
      }
    }

    /** The NVS calls numbered `from` up to `to` succeeded. */
    ghost predicate NvsWorked(from: nat, to: nat) {
      forall k | from <= k < to :: !nvsFails(k)
    }

    method NvsCall() returns (ok: bool)
      modifies this`nvsCalls
      ensures nvsCalls == old(nvsCalls) + 1 && ok == !nvsFails(old(nvsCalls))
    {
      ok := !nvsFails(nvsCalls);
      nvsCalls := nvsCalls + 1;
    }

    /** saveRuntimeConfigToNvs: opens the store, writes the exported configuration, and commits. */
    method SaveRuntimeConfigToNvs() returns (ok: bool)
      modifies this`nvsCalls, this`stored
      ensures ok <==> NvsWorked(old(nvsCalls), nvsCalls)
      ensures ok ==> stored == Some(Export(inputs, outs))
      ensures nvsCalls == old(nvsCalls) + if nvsFails(old(nvsCalls)) then 1 else if nvsFails(old(nvsCalls) + 1) then 2 else 3
      ensures stored == if nvsFails(old(nvsCalls)) || nvsFails(old(nvsCalls) + 1) then old(stored) else Some(Export(inputs, outs))
    {
      var cfg := Export(inputs, outs);
      hide Export;
      ok := NvsCall();
      if !ok {
        return;
      }
      ok := NvsCall();
      if ok {
        stored := Some(cfg);
        ok := NvsCall();
      }
    }

    /**
     applyPersistedConfig. An accepted configuration is written back to NVS as exported;
     whether that write works does not change the answer.
     */
    method ApplyPersistedConfig(cfg: PersistedConfig) returns (r: Option<Rejection>)
      requires InSync() && AttachedIsUsed()
      modifies this
      ensures InSync() && AttachedIsUsed()
      ensures r == Some(InvalidFormat) <==> cfg.magic != CONFIG_MAGIC || cfg.version != CONFIG_VERSION
      ensures r != None ==> stored == old(stored)
      ensures r == None ==>
                && (stored == old(stored) || stored == Some(Export(inputs, outs)))
                && (NvsWorked(old(nvsCalls), nvsCalls) ==> stored == Some(Export(inputs, outs)))
      ensures r == Some(InvalidFormat) ==>
                inputs == old(inputs) && outs == old(outs) && servos == old(servos) && toggles == old(toggles) && pins == old(pins)
      ensures r != Some(InvalidFormat) ==>
                && (r == None <==> Apply(board, cfg).Applied?)
                && (r == None ==>
                      && outs == Apply(board, cfg).outs && inputs == InputsOf(cfg) && AllAtFailsafe() && DistinctPins(outs)
                      && forall i | 0 <= i < MAX_OUTPUT_CHANNELS ::
                           WellPlaced(board, cfg.channels[i], outs[i]) && Driven(board, outs[i], servos[i]))
                && (r != None ==>
                      && r == Some(Refused(Apply(board, cfg).error))
                      && inputs == old(inputs)
                      && Restored(outs, pwmAttached) == RestoreAll(board, Apply(board, cfg).partial, old(outs), old(pwmAttached))
                      && forall i | 0 <= i < MAX_OUTPUT_CHANNELS && pwmAttached[i] :: Driven(board, outs[i], servos[i]))
                && forall i | 0 <= i < MAX_VIRTUAL_INPUTS ::
                     toggles[i] == if cfg.inputs[i].used == 0 then old(toggles)[i] else StartOf(DecodeInput(cfg.inputs[i]), old(toggles)[i].dir)
    {
      hide *;
      if cfg.magic != CONFIG_MAGIC || cfg.version != CONFIG_VERSION {
        return Some(InvalidFormat);
      }
      var oldInputs, oldOuts, oldPwm := inputs, outs, pwmAttached;
      ReleaseAll();
      InstallInputs(cfg);
      var e := InstallOutputs(cfg);
      if e.Some? {
        RestoreOld(oldInputs, oldOuts, oldPwm);
        return Some(Refused(e.value));
      }
      ApplyFailsafeAllOutputs();
      ApplyIsSound(board, cfg);
      var saved := SaveRuntimeConfigToNvs();
      return None;
    }

    /** The first loops of applyPersistedConfig: detach everything and blank the tables. */
    method ReleaseAll()
      requires InSync() && AttachedIsUsed()
      modifies this`servos, this`pwmAttached, this`inputs, this`outs
      ensures InSync() && pwmAttached == NoFlags()
      ensures inputs == BlankInputs() && outs == BlankOutputs()
    {
      inputs := BlankInputs();
      var i := 0;
      while i < MAX_OUTPUT_CHANNELS
        invariant 0 <= i <= MAX_OUTPUT_CHANNELS && InSync() && AttachedIsUsed() && inputs == BlankInputs()
        invariant forall j | 0 <= j < i :: outs[j] == DEFAULT_OUTPUT
      {
        if outs[i].used {
          ReleaseOutputHardware(i);
        }
        outs := outs[i := DEFAULT_OUTPUT];
        i := i + 1;
      }
      assert outs == BlankOutputs();
      forall j | 0 <= j < MAX_OUTPUT_CHANNELS ensures !pwmAttached[j] {
        assert !outs[j].used;
      }
      assert pwmAttached == NoFlags();
    }

    method InstallInputs(cfg: PersistedConfig)
      requires inputs == BlankInputs()
      modifies this`inputs, this`toggles
      ensures inputs == InputsOf(cfg)
      ensures forall i | 0 <= i < MAX_VIRTUAL_INPUTS ::
                toggles[i] == if cfg.inputs[i].used == 0 then old(toggles)[i] else StartOf(DecodeInput(cfg.inputs[i]), old(toggles)[i].dir)
    {
      hide DecodeInput, StartOf;
      var i := 0;
      while i < MAX_VIRTUAL_INPUTS
        invariant 0 <= i <= MAX_VIRTUAL_INPUTS
        invariant forall j | 0 <= j < i :: inputs[j] == InputSlot(cfg.inputs[j])
        invariant forall j | i <= j < MAX_VIRTUAL_INPUTS :: inputs[j] == DEFAULT_INPUT && toggles[j] == old(toggles)[j]
        invariant forall j | 0 <= j < i ::
                    toggles[j] == if cfg.inputs[j].used == 0 then old(toggles)[j] else StartOf(DecodeInput(cfg.inputs[j]), old(toggles)[j].dir)
      {
        if cfg.inputs[i].used != 0 {
          inputs := inputs[i := DecodeInput(cfg.inputs[i])];
          toggles := toggles[i := StartOf(inputs[i], toggles[i].dir)];
        }
        i := i + 1;
      }
      assert inputs == InputsOf(cfg);
    }

    /** The channel loop of applyPersistedConfig, up to the first refusal. */
    method InstallOutputs(cfg: PersistedConfig) returns (e: Option<ApplyError>)
      requires InSync() && pwmAttached == NoFlags() && outs == BlankOutputs()
      modifies this`outs, this`servos, this`pwmAttached, this`pins, this`runtime
      ensures InSync() && AttachedIsUsed()
      ensures e.None? <==> Apply(board, cfg).Applied?
      ensures e.None? ==> outs == Apply(board, cfg).outs && forall i | 0 <= i < MAX_OUTPUT_CHANNELS :: Driven(board, outs[i], servos[i])
      ensures e.Some? ==> Apply(board, cfg) == Rejected(outs, e.value)
    {
      hide ApplyOne, HoldsFailsafe, Driven;
      var i := 0;
      BlankIsDriven(board);
      while i < MAX_OUTPUT_CHANNELS
        invariant 0 <= i <= MAX_OUTPUT_CHANNELS && InSync() && AttachedIsUsed()
        invariant ApplyFrom(board, cfg, outs, i) == Apply(board, cfg)
        invariant forall j | 0 <= j < i :: Driven(board, outs[j], servos[j])
        invariant forall j | i <= j < MAX_OUTPUT_CHANNELS :: outs[j] == DEFAULT_OUTPUT
      {
        assert !pwmAttached[i];
        if cfg.channels[i].used != 0 {
          e := InstallChannel(cfg.channels[i], i);
          if e.Some? {
            return;
          }
        }
        i := i + 1;
      }
      return None;
    }

    /** The body of the channel loop, for a used channel. */
    method InstallChannel(pc: PersistedChannel, i: nat) returns (e: Option<ApplyError>)
      requires i < MAX_OUTPUT_CHANNELS && InSync() && AttachedIsUsed() && !pwmAttached[i]
      modifies this`outs, this`servos, this`pwmAttached, this`pins, this`runtime
      ensures InSync() && AttachedIsUsed()
      ensures ApplyOne(board, pc, old(outs), i) == if e.None? then Applied(outs) else Rejected(outs, e.value)
      ensures forall j | 0 <= j < MAX_OUTPUT_CHANNELS && j != i :: outs[j] == old(outs)[j] && servos[j] == old(servos)[j]
      ensures e.None? ==> Driven(board, outs[i], servos[i])
    {
      hide Setup, HoldsFailsafe, Driven, PinTaken, SourcesValid;
      if !SourcesValid(pc) {
        return Some(BadSource);
      }
      var wanted := DecodeChannel(pc);
      hide DecodeChannel;
      outs := outs[i := wanted];
      if outs[i].kind == Pwm && !board.hasPwm(outs[i].pin) {
        var fallback := FirstAvailablePwmPin(i);
        if fallback.None? {
          return Some(NoPwmPin);
        }
        outs := outs[i := outs[i].(pin := fallback.value)];
        assert outs == old(outs)[i := wanted.(pin := fallback.value)];
      }
      assert ApplyOne(board, pc, old(outs), i) == Finish(board, outs, i);
      SetupFrame(board, outs, i);
      hide ApplyOne;
      var ok := SetupOutputHardware(i);
      return if ok then None else Some(SetupRefused);
    }
  }

  /** Setup touches only its own slot and keeps it used. */
  lemma SetupFrame(b: Board, outs: Outputs, i: nat)
    requires i < MAX_OUTPUT_CHANNELS
    ensures Setup(b, outs, i).Some? ==>
              var after := Setup(b, outs, i).value;
              && (forall j | 0 <= j < MAX_OUTPUT_CHANNELS && j != i :: after[j] == outs[j])
              && after[i].used == outs[i].used
  {
    if Setup(b, outs, i).Some? {
      SetupEffect(b, outs, i);
    }
  }

  lemma BlankIsDriven(b: Board)
    ensures Driven(b, DEFAULT_OUTPUT, Detached)
    ensures forall servo :: Driven(b, DEFAULT_OUTPUT, servo)
  {}

  lemma UnusedIsSilent(o: Output, levels: Levels)
    requires !o.used
    ensures OutputSignal(o, levels) == 0.0
  {}
}
