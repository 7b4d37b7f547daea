/**
 Pin allocation and the transactional apply of main/rc_model.cpp, as functions of the
 output table: which pin each channel gets, when a channel is refused, what a rejected
 configuration leaves behind, and what the rollback makes of it.

 A board says which pins can carry PWM and on which pins a servo attaches; both are
 arbitrary here, so the results hold for every target.
 */
module OutputPins {
  import opened Wrappers
  import opened RcTypes
  import opened RcConfig

  datatype Board = Board(hasPwm: int -> bool, attaches: int -> bool)

  const LAST_PIN := 48

  /** outputPinAlreadyUsed */
  predicate PinTaken(outs: Outputs, pin: int, ignore: int) {
    exists j | 0 <= j < MAX_OUTPUT_CHANNELS :: j != ignore && outs[j].used && outs[j].pin == pin
  }

  /** tryAttachOnPin succeeds. */
  predicate Usable(b: Board, outs: Outputs, i: int, pin: int) {
    b.hasPwm(pin) && !PinTaken(outs, pin, i) && b.attaches(pin)
  }

  function ScanUsable(b: Board, outs: Outputs, i: int, pin: nat): (r: Option<uint8>)
    requires pin <= LAST_PIN + 1
    ensures r.Some? ==> pin <= r.value <= LAST_PIN && Usable(b, outs, i, r.value)
    ensures r.Some? ==> forall p | pin <= p < r.value :: !Usable(b, outs, i, p)
    ensures r.None? ==> forall p | pin <= p <= LAST_PIN :: !Usable(b, outs, i, p)
    decreases LAST_PIN + 1 - pin
  {
    if pin > LAST_PIN then None
    else if Usable(b, outs, i, pin) then Some(pin)
    else ScanUsable(b, outs, i, pin + 1)
  }

  /** The pin channel `i` ends on: the requested one if usable, else the least usable one. */
  function ChoosePin(b: Board, outs: Outputs, i: nat): Option<uint8>
    requires i < MAX_OUTPUT_CHANNELS
  {
    if Usable(b, outs, i, outs[i].pin) then Some(outs[i].pin) else ScanUsable(b, outs, i, 0)
  }

  /** Setup is refused exactly when no pin of the scan, nor the requested one, is usable. */
  lemma ChoosePinFailsIff(b: Board, outs: Outputs, i: nat)
    requires i < MAX_OUTPUT_CHANNELS
    ensures ChoosePin(b, outs, i).None? <==>
            forall p | p == outs[i].pin || 0 <= p <= LAST_PIN :: !Usable(b, outs, i, p)
  {}

  /** setupOutputHardware on channel `i`, seen on the table; None when it reports an error. */
  function Setup(b: Board, outs: Outputs, i: nat): Option<Outputs>
    requires i < MAX_OUTPUT_CHANNELS
  {
    if outs[i].kind == Pwm then
      match ChoosePin(b, outs, i)
      case Some(pin) => Some(outs[i := outs[i].(pin := pin)])
      case None => None
    else if PinTaken(outs, outs[i].pin, i) then None
    else Some(outs)
  }

  /** A successful setup changes nothing but the channel's pin, which nobody else holds. */
  lemma SetupEffect(b: Board, outs: Outputs, i: nat)
    requires i < MAX_OUTPUT_CHANNELS && Setup(b, outs, i).Some?
    ensures var after := Setup(b, outs, i).value;
            && after == outs[i := outs[i].(pin := after[i].pin)]
            && !PinTaken(after, after[i].pin, i)
            && (outs[i].kind == Pwm ==> b.hasPwm(after[i].pin) && b.attaches(after[i].pin))
            && (outs[i].kind == Switch || Usable(b, outs, i, outs[i].pin) ==> after == outs)
  {
    var after := Setup(b, outs, i).value;
    if outs[i].kind == Pwm {
      var pin := ChoosePin(b, outs, i).value;
      assert Usable(b, outs, i, pin);
      assert after[i].pin == pin;
      forall j | 0 <= j < MAX_OUTPUT_CHANNELS && j != i && after[j].used
        ensures after[j].pin != pin
      {
        assert after[j] == outs[j];
      }
    }
  }

  // ----- Apply -----

  datatype ApplyError = BadSource | NoPwmPin | SetupRefused

  datatype Applied = Applied(outs: Outputs) | Rejected(partial: Outputs, error: ApplyError)

  predicate SourceValid(s: int8) {
    -1 <= s < MAX_VIRTUAL_INPUTS
  }

  predicate SourcesValid(pc: PersistedChannel) {
    SourceValid(pc.sourceA) && SourceValid(pc.sourceB) && SourceValid(pc.sourceC)
  }

  /** firstAvailablePwmPin */
  function FirstCapablePin(b: Board, outs: Outputs, i: int, pin: nat): (r: Option<uint8>)
    requires pin <= LAST_PIN + 1
    ensures r.Some? ==> pin <= r.value <= LAST_PIN && b.hasPwm(r.value) && !PinTaken(outs, r.value, i)
    ensures r.Some? ==> forall p | pin <= p < r.value :: !b.hasPwm(p) || PinTaken(outs, p, i)
    ensures r.None? ==> forall p | pin <= p <= LAST_PIN :: !b.hasPwm(p) || PinTaken(outs, p, i)
    decreases LAST_PIN + 1 - pin
  {
    if pin > LAST_PIN then None
    else if b.hasPwm(pin) && !PinTaken(outs, pin, i) then Some(pin)
    else FirstCapablePin(b, outs, i, pin + 1)
  }

  /** One used channel of the configuration, installed on a table where slot `i` is blank. */
  function ApplyOne(b: Board, pc: PersistedChannel, outs: Outputs, i: nat): Applied
    requires i < MAX_OUTPUT_CHANNELS
  {
    if !SourcesValid(pc) then Rejected(outs, BadSource)
    else
      var wanted := DecodeChannel(pc);
      var placed := outs[i := wanted];
      if wanted.kind == Pwm && !b.hasPwm(wanted.pin) then
        match FirstCapablePin(b, placed, i, 0)
        case None => Rejected(placed, NoPwmPin)
        case Some(pin) => Finish(b, outs[i := wanted.(pin := pin)], i)
      else Finish(b, placed, i)
  }

  function Finish(b: Board, outs: Outputs, i: nat): Applied
    requires i < MAX_OUTPUT_CHANNELS
  {
    match Setup(b, outs, i)
    case Some(after) => Applied(after)
    case None => Rejected(outs, SetupRefused)
  }

  /** The channel loop of applyPersistedConfig from channel `i` on. */
  function ApplyFrom(b: Board, cfg: PersistedConfig, outs: Outputs, i: nat): Applied
    requires i <= MAX_OUTPUT_CHANNELS
    decreases MAX_OUTPUT_CHANNELS - i
  {
    if i == MAX_OUTPUT_CHANNELS then Applied(outs)
    else if cfg.channels[i].used == 0 then ApplyFrom(b, cfg, outs, i + 1)
    else
      match ApplyOne(b, cfg.channels[i], outs, i)
      case Applied(after) => ApplyFrom(b, cfg, after, i + 1)
      case Rejected(partial, e) => Rejected(partial, e)
  }

  function Apply(b: Board, cfg: PersistedConfig): Applied {
    ApplyFrom(b, cfg, BlankOutputs(), 0)
  }

  // ----- A successful apply -----

  predicate DistinctPins(outs: Outputs) {
    forall i, j | 0 <= i < j < MAX_OUTPUT_CHANNELS :: outs[i].used && outs[j].used ==> outs[i].pin != outs[j].pin
  }

  /** Channel `i` as the configuration asks for it, on a pin the board can drive it on. */
  predicate WellPlaced(b: Board, pc: PersistedChannel, o: Output) {
    if pc.used == 0 then o == DEFAULT_OUTPUT
    else
      && SourcesValid(pc)
      && o == DecodeChannel(pc).(pin := o.pin)
      && (o.kind == Pwm ==> b.hasPwm(o.pin) && b.attaches(o.pin))
      && (o.kind == Switch ==> o.pin == pc.pin)
  }

  /** The table while the loop stands at channel `i`. */
  predicate Progress(b: Board, cfg: PersistedConfig, outs: Outputs, i: nat) {
    && i <= MAX_OUTPUT_CHANNELS
    && DistinctPins(outs)
    && (forall j | 0 <= j < i :: WellPlaced(b, cfg.channels[j], outs[j]))
    && (forall j | i <= j < MAX_OUTPUT_CHANNELS :: outs[j] == DEFAULT_OUTPUT)
  }

  lemma TakenMeansNoClash(outs: Outputs, before: Outputs, i: nat)
    requires i < MAX_OUTPUT_CHANNELS && DistinctPins(before)
    requires forall j | 0 <= j < MAX_OUTPUT_CHANNELS && j != i :: outs[j] == before[j]
    requires !PinTaken(outs, outs[i].pin, i)
    ensures DistinctPins(outs)
  {
    forall j, k | 0 <= j < k < MAX_OUTPUT_CHANNELS && outs[j].used && outs[k].used
      ensures outs[j].pin != outs[k].pin
    {
      if j == i {
        assert outs[k].pin != outs[i].pin;
      } else if k == i {
        assert outs[j].pin != outs[i].pin;
      } else {
        assert outs[j] == before[j] && outs[k] == before[k];
      }
    }
  }

  lemma FinishPlaces(b: Board, pc: PersistedChannel, before: Outputs, outs: Outputs, i: nat)
    requires i < MAX_OUTPUT_CHANNELS && pc.used != 0 && SourcesValid(pc) && DistinctPins(before)
    requires outs == before[i := outs[i]] && outs[i] == DecodeChannel(pc).(pin := outs[i].pin)
    requires outs[i].kind == Switch ==> outs[i].pin == pc.pin
    ensures Finish(b, outs, i).Applied? ==>
              var after := Finish(b, outs, i).outs;
              DistinctPins(after) && WellPlaced(b, pc, after[i]) && after == before[i := after[i]]
  {
    if Finish(b, outs, i).Applied? {
      SetupEffect(b, outs, i);
      var after := Finish(b, outs, i).outs;
      TakenMeansNoClash(after, before, i);
    }
  }

  lemma ApplyOneProgress(b: Board, cfg: PersistedConfig, outs: Outputs, i: nat)
    requires i < MAX_OUTPUT_CHANNELS && Progress(b, cfg, outs, i) && cfg.channels[i].used != 0
    ensures ApplyOne(b, cfg.channels[i], outs, i).Applied? ==>
              Progress(b, cfg, ApplyOne(b, cfg.channels[i], outs, i).outs, i + 1)
  {
    var pc := cfg.channels[i];
    if SourcesValid(pc) {
      var wanted := DecodeChannel(pc);
      FinishPlaces(b, pc, outs, outs[i := wanted], i);
      if wanted.kind == Pwm {
        var pin := FirstCapablePin(b, outs[i := wanted], i, 0);
        if pin.Some? {
          FinishPlaces(b, pc, outs, outs[i := wanted.(pin := pin.value)], i);
        }
      }
    }
    hide WellPlaced, DistinctPins, Finish;
  }

  /** Whatever configuration is accepted, its channels sit on distinct, suitable pins with all other fields as asked. */
  lemma {:induction false} AppliedIsSound(b: Board, cfg: PersistedConfig, outs: Outputs, i: nat)
    requires Progress(b, cfg, outs, i)
    ensures ApplyFrom(b, cfg, outs, i).Applied? ==>
              Progress(b, cfg, ApplyFrom(b, cfg, outs, i).outs, MAX_OUTPUT_CHANNELS)
    decreases MAX_OUTPUT_CHANNELS - i
  {
    hide WellPlaced, DistinctPins;
    if i < MAX_OUTPUT_CHANNELS {
      if cfg.channels[i].used == 0 {
        BlankIsWellPlaced(b, cfg.channels[i]);
        AppliedIsSound(b, cfg, outs, i + 1);
      } else {
        ApplyOneProgress(b, cfg, outs, i);
        match ApplyOne(b, cfg.channels[i], outs, i)
        case Applied(after) => AppliedIsSound(b, cfg, after, i + 1);
        case Rejected(_, _) =>
      }
    }
  }

  lemma BlankIsWellPlaced(b: Board, pc: PersistedChannel)
    requires pc.used == 0
    ensures WellPlaced(b, pc, DEFAULT_OUTPUT)
  {}

  lemma ApplyIsSound(b: Board, cfg: PersistedConfig)
    ensures Apply(b, cfg).Applied? ==>
              var outs := Apply(b, cfg).outs;
              DistinctPins(outs) && forall i | 0 <= i < MAX_OUTPUT_CHANNELS :: WellPlaced(b, cfg.channels[i], outs[i])
  {
    AppliedIsSound(b, cfg, BlankOutputs(), 0);
  }

  /** In the persisted bytes' own terms: every channel of an accepted configuration carries the settings asked for. */
  lemma AcceptedCarriesSettings(b: Board, cfg: PersistedConfig, i: nat)
    requires Apply(b, cfg).Applied? && i < MAX_OUTPUT_CHANNELS
    ensures var o, pc := Apply(b, cfg).outs[i], cfg.channels[i];
            && (o.used <==> pc.used != 0)
            && (pc.used != 0 ==> CarriesSettings(o, pc) && o.failsafe == DecodeChannel(pc).failsafe)
            && (pc.used != 0 ==> -1 <= pc.sourceA <= 15 && -1 <= pc.sourceB <= 15 && -1 <= pc.sourceC <= 15)
  {
    ApplyIsSound(b, cfg);
    ChannelCarriesSettings(cfg.channels[i]);
    var o := Apply(b, cfg).outs[i];
    hide Apply, DecodeChannel;
    assert WellPlaced(b, cfg.channels[i], o);
    hide WellPlaced, CarriesSettings;
  }

  // ----- Accepting without remapping -----

  /** What the configuration asks for, pins included. */
  function Wanted(pc: PersistedChannel): Output {
    if pc.used == 0 then DEFAULT_OUTPUT else DecodeChannel(pc)
  }

  function WantedOutputs(cfg: PersistedConfig): (r: Outputs)
    ensures forall i | 0 <= i < MAX_OUTPUT_CHANNELS :: r[i] == Wanted(cfg.channels[i])
  {
    seq(MAX_OUTPUT_CHANNELS, i requires 0 <= i < MAX_OUTPUT_CHANNELS => Wanted(cfg.channels[i]))
  }

  predicate Placeable(b: Board, pc: PersistedChannel) {
    pc.used != 0 ==>
      SourcesValid(pc) && (DecodeChannel(pc).kind == Pwm ==> b.hasPwm(pc.pin) && b.attaches(pc.pin))
  }

  lemma PlaceableIsKept(b: Board, pc: PersistedChannel, outs: Outputs, i: nat)
    requires i < MAX_OUTPUT_CHANNELS && pc.used != 0 && Placeable(b, pc) && !PinTaken(outs, pc.pin, i)
    ensures ApplyOne(b, pc, outs, i) == Applied(outs[i := DecodeChannel(pc)])
  {
    var placed := outs[i := DecodeChannel(pc)];
    assert !PinTaken(placed, pc.pin, i) by {
      forall j | 0 <= j < MAX_OUTPUT_CHANNELS && j != i && placed[j].used
        ensures placed[j].pin != pc.pin
      {
        assert placed[j] == outs[j];
      }
    }
    if placed[i].kind == Pwm {
      assert Usable(b, placed, i, placed[i].pin);
      assert placed[i := placed[i].(pin := placed[i].pin)] == placed;
    }
  }

  lemma {:induction false} PlaceableFrom(b: Board, cfg: PersistedConfig, outs: Outputs, i: nat)
    requires i <= MAX_OUTPUT_CHANNELS && DistinctPins(WantedOutputs(cfg))
    requires forall j | 0 <= j < MAX_OUTPUT_CHANNELS :: Placeable(b, cfg.channels[j])
    requires forall j | 0 <= j < i :: outs[j] == Wanted(cfg.channels[j])
    requires forall j | i <= j < MAX_OUTPUT_CHANNELS :: outs[j] == DEFAULT_OUTPUT
    ensures ApplyFrom(b, cfg, outs, i) == Applied(WantedOutputs(cfg))
    decreases MAX_OUTPUT_CHANNELS - i
  {
    hide Placeable, ApplyOne;
    var want := WantedOutputs(cfg);
    if i == MAX_OUTPUT_CHANNELS {
      assert outs == want;
    } else if cfg.channels[i].used == 0 {
      PlaceableFrom(b, cfg, outs, i + 1);
    } else {
      assert !PinTaken(outs, cfg.channels[i].pin, i) by {
        forall j | 0 <= j < MAX_OUTPUT_CHANNELS && j != i && outs[j].used
          ensures outs[j].pin != cfg.channels[i].pin
        {
          assert j < i && outs[j] == want[j] && want[i].used;
        }
      }
      PlaceableIsKept(b, cfg.channels[i], outs, i);
      PlaceableFrom(b, cfg, outs[i := DecodeChannel(cfg.channels[i])], i + 1);
    }
  }

  /** A configuration with distinct, attachable pins and valid sources is accepted pin for pin. */
  lemma AcceptedWithoutRemap(b: Board, cfg: PersistedConfig)
    requires DistinctPins(WantedOutputs(cfg))
    requires forall j | 0 <= j < MAX_OUTPUT_CHANNELS :: Placeable(b, cfg.channels[j])
    ensures Apply(b, cfg) == Applied(WantedOutputs(cfg))
  {
    PlaceableFrom(b, cfg, BlankOutputs(), 0);
  }

  // ----- Example tables -----

  /** A PWM channel on pin 5. */
  const HELD := DEFAULT_OUTPUT.(used := true, pin := 5, failsafe := Min)

  function OnlySlot(i: nat, o: Output): (r: Outputs)
    requires i < MAX_OUTPUT_CHANNELS
    ensures forall j | 0 <= j < MAX_OUTPUT_CHANNELS :: r[j] == if j == i then o else DEFAULT_OUTPUT
  {
    BlankOutputs()[i := o]
  }

  // ----- What a refusal leaves behind -----

  /** The pin a refused channel is left asking for: an incapable requested pin has already been replaced, if possible. */
  function LeftPin(b: Board, pc: PersistedChannel, before: Outputs, k: nat): uint8
    requires k < MAX_OUTPUT_CHANNELS
  {
    if DecodeChannel(pc).kind == Pwm && !b.hasPwm(pc.pin) then
      match FirstCapablePin(b, before, k, 0)
      case Some(pin) => pin
      case None => pc.pin
    else pc.pin
  }

  /** A used channel is refused for a bad source, for a taken pin, or when neither its pin nor any of 0..48 is usable. */
  predicate Refuses(b: Board, pc: PersistedChannel, before: Outputs, k: nat)
    requires k < MAX_OUTPUT_CHANNELS
  {
    || !SourcesValid(pc)
    || (DecodeChannel(pc).kind == Switch && PinTaken(before, pc.pin, k))
    || (DecodeChannel(pc).kind == Pwm && !Usable(b, before, k, pc.pin) && forall p | 0 <= p <= LAST_PIN :: !Usable(b, before, k, p))
  }

  /** A source names one of the sixteen inputs, or is -1 for none; any other is refused. */
  lemma BadSourceIsRefused(b: Board, pc: PersistedChannel, before: Outputs, k: nat)
    requires k < MAX_OUTPUT_CHANNELS
    ensures !(-1 <= pc.sourceA <= 15 && -1 <= pc.sourceB <= 15 && -1 <= pc.sourceC <= 15) <==>
            ApplyOne(b, pc, before, k) == Rejected(before, BadSource)
  {
    hide Finish;
    if SourcesValid(pc) {
      ApplyOneError(b, pc, before, k);
    }
  }

  lemma ApplyOneError(b: Board, pc: PersistedChannel, before: Outputs, k: nat)
    requires k < MAX_OUTPUT_CHANNELS && SourcesValid(pc)
    ensures ApplyOne(b, pc, before, k).Rejected? ==> ApplyOne(b, pc, before, k).error != BadSource
  {}

  lemma {:induction false} SameTakenPins(b: Board, outs: Outputs, before: Outputs, k: nat, pin: nat)
    requires k < MAX_OUTPUT_CHANNELS && pin <= LAST_PIN + 1
    requires forall j | 0 <= j < MAX_OUTPUT_CHANNELS && j != k :: outs[j] == before[j]
    ensures forall p :: PinTaken(outs, p, k) <==> PinTaken(before, p, k)
    ensures forall p :: Usable(b, outs, k, p) <==> Usable(b, before, k, p)
    ensures FirstCapablePin(b, outs, k, pin) == FirstCapablePin(b, before, k, pin)
    decreases LAST_PIN + 1 - pin
  {
    forall p
      ensures PinTaken(outs, p, k) <==> PinTaken(before, p, k)
    {
      if PinTaken(outs, p, k) {
        var j :| 0 <= j < MAX_OUTPUT_CHANNELS && j != k && outs[j].used && outs[j].pin == p;
        assert before[j].used && before[j].pin == p;
      }
      if PinTaken(before, p, k) {
        var j :| 0 <= j < MAX_OUTPUT_CHANNELS && j != k && before[j].used && before[j].pin == p;
        assert outs[j].used && outs[j].pin == p;
      }
    }
    hide PinTaken;
    if pin <= LAST_PIN {
      SameTakenPins(b, outs, before, k, pin + 1);
    }
  }

  lemma FinishRefusesIff(b: Board, pc: PersistedChannel, before: Outputs, outs: Outputs, k: nat)
    requires k < MAX_OUTPUT_CHANNELS && outs == before[k := outs[k]]
    requires outs[k] == DecodeChannel(pc).(pin := outs[k].pin)
    ensures Finish(b, outs, k).Rejected? ==> Finish(b, outs, k).partial == outs
    ensures outs[k].kind == Switch ==> (Finish(b, outs, k).Rejected? <==> PinTaken(before, outs[k].pin, k))
    ensures outs[k].kind == Pwm ==>
              (Finish(b, outs, k).Rejected? <==> forall p | p == outs[k].pin || 0 <= p <= LAST_PIN :: !Usable(b, before, k, p))
  {
    SameTakenPins(b, outs, before, k, 0);
    ChoosePinFailsIff(b, outs, k);
    hide ChoosePin, PinTaken, Usable, FirstCapablePin;
  }

  /** When one channel is refused, and what it is left as. */
  lemma ApplyOneRefusesIff(b: Board, pc: PersistedChannel, before: Outputs, k: nat)
    requires k < MAX_OUTPUT_CHANNELS
    ensures ApplyOne(b, pc, before, k).Rejected? <==> Refuses(b, pc, before, k)
    ensures ApplyOne(b, pc, before, k).Rejected? ==>
              ApplyOne(b, pc, before, k).partial ==
                if SourcesValid(pc) then before[k := DecodeChannel(pc).(pin := LeftPin(b, pc, before, k))] else before
  {
    hide Finish, SourcesValid;
    if SourcesValid(pc) {
      var wanted := DecodeChannel(pc);
      assert wanted.pin == pc.pin;
      hide DecodeChannel;
      SameTakenPins(b, before[k := wanted], before, k, 0);
      FinishRefusesIff(b, pc, before, before[k := wanted], k);
      if wanted.kind == Pwm && !b.hasPwm(pc.pin) {
        var pin := FirstCapablePin(b, before, k, 0);
        if pin.Some? {
          FinishRefusesIff(b, pc, before, before[k := wanted.(pin := pin.value)], k);
        }
      }
      hide PinTaken;
    }
  }

  /** The configuration with channel `k` and all later ones left out. */
  function Upto(cfg: PersistedConfig, k: nat): (r: PersistedConfig)
    requires k <= MAX_OUTPUT_CHANNELS
    ensures forall j | 0 <= j < MAX_OUTPUT_CHANNELS :: r.channels[j] == if j < k then cfg.channels[j] else EncodeChannel(DEFAULT_OUTPUT)
  {
    cfg.(channels := FirstChannels(cfg.channels, k))
  }

  function FirstChannels(channels: ChannelTable, k: nat): (r: ChannelTable)
    requires k <= MAX_OUTPUT_CHANNELS
    ensures forall j | 0 <= j < MAX_OUTPUT_CHANNELS :: r[j] == if j < k then channels[j] else EncodeChannel(DEFAULT_OUTPUT)
  {
    channels[..k] + seq(MAX_OUTPUT_CHANNELS - k, j => EncodeChannel(DEFAULT_OUTPUT))
  }

  /** Channel `k` is the first one refused: those before it are accepted, as `before`, when asked for alone. */
  predicate FirstRefusal(b: Board, cfg: PersistedConfig, k: nat, before: Outputs) {
    && k < MAX_OUTPUT_CHANNELS
    && Apply(b, Upto(cfg, k)) == Applied(before)
    && cfg.channels[k].used != 0
    && Refuses(b, cfg.channels[k], before, k)
  }

  lemma {:induction false} UnusedTail(b: Board, cfg: PersistedConfig, outs: Outputs, i: nat)
    requires i <= MAX_OUTPUT_CHANNELS && forall j | i <= j < MAX_OUTPUT_CHANNELS :: cfg.channels[j].used == 0
    ensures ApplyFrom(b, cfg, outs, i) == Applied(outs)
    decreases MAX_OUTPUT_CHANNELS - i
  {
    if i < MAX_OUTPUT_CHANNELS {
      UnusedTail(b, cfg, outs, i + 1);
    }
  }

  lemma {:induction false} RefusalFrom(b: Board, cfg: PersistedConfig, outs: Outputs, i: nat) returns (k: nat, before: Outputs)
    requires i <= MAX_OUTPUT_CHANNELS && ApplyFrom(b, cfg, outs, i).Rejected?
    ensures i <= k < MAX_OUTPUT_CHANNELS && cfg.channels[k].used != 0
    ensures ApplyFrom(b, Upto(cfg, k), outs, i) == Applied(before)
    ensures ApplyOne(b, cfg.channels[k], before, k) == ApplyFrom(b, cfg, outs, i)
    decreases MAX_OUTPUT_CHANNELS - i
  {
    hide ApplyOne;
    if cfg.channels[i].used == 0 {
      k, before := RefusalFrom(b, cfg, outs, i + 1);
    } else {
      var first := ApplyOne(b, cfg.channels[i], outs, i);
      if first.Rejected? {
        k, before := i, outs;
        UnusedTail(b, Upto(cfg, i), outs, i);
      } else {
        k, before := RefusalFrom(b, cfg, first.outs, i + 1);
      }
    }
  }

  lemma {:induction false} RefusalStops(b: Board, cfg: PersistedConfig, outs: Outputs, i: nat, k: nat, before: Outputs)
    requires i <= k < MAX_OUTPUT_CHANNELS && cfg.channels[k].used != 0
    requires ApplyFrom(b, Upto(cfg, k), outs, i) == Applied(before)
    requires ApplyOne(b, cfg.channels[k], before, k).Rejected?
    ensures ApplyFrom(b, cfg, outs, i) == ApplyOne(b, cfg.channels[k], before, k)
    decreases k - i
  {
    hide ApplyOne;
    if i == k {
      UnusedTail(b, Upto(cfg, k), outs, k);
    } else if cfg.channels[i].used == 0 {
      RefusalStops(b, cfg, outs, i + 1, k, before);
    } else {
      RefusalStops(b, cfg, ApplyOne(b, cfg.channels[i], outs, i).outs, i + 1, k, before);
    }
  }

  /** A configuration is rejected exactly when some channel is the first refused. */
  lemma RejectedIff(b: Board, cfg: PersistedConfig)
    ensures Apply(b, cfg).Rejected? <==> exists k: nat, before: Outputs :: FirstRefusal(b, cfg, k, before)
  {
    hide Refuses, ApplyOne, ApplyFrom, Upto;
    if Apply(b, cfg).Rejected? {
      var k, before := RefusalFrom(b, cfg, BlankOutputs(), 0);
      ApplyOneRefusesIff(b, cfg.channels[k], before, k);
      assert FirstRefusal(b, cfg, k, before);
    }
    if k: nat, before: Outputs :| FirstRefusal(b, cfg, k, before) {
      RefusalLeaves(b, cfg, k, before);
    }
  }

  /**
   What is in the table then are the channels before it, as they would have been accepted
   alone, and, unless its sources were bad, the refused channel itself, on the pin it was
   left asking for.
   */
  lemma RefusalLeaves(b: Board, cfg: PersistedConfig, k: nat, before: Outputs)
    requires FirstRefusal(b, cfg, k, before)
    ensures Apply(b, cfg).Rejected? && Apply(b, cfg).partial == Leftover(b, cfg.channels[k], before, k)
  {
    ApplyOneRefusesIff(b, cfg.channels[k], before, k);
    hide Refuses, ApplyOne, ApplyFrom, Upto;
    RefusalStops(b, cfg, BlankOutputs(), 0, k, before);
  }

  function Leftover(b: Board, pc: PersistedChannel, before: Outputs, k: nat): Outputs
    requires k < MAX_OUTPUT_CHANNELS
  {
    if SourcesValid(pc) then before[k := DecodeChannel(pc).(pin := LeftPin(b, pc, before, k))] else before
  }

  /** The channels before the refused one are sound, and no later one is in the table. */
  lemma BeforeRefusal(b: Board, cfg: PersistedConfig, k: nat, before: Outputs)
    requires FirstRefusal(b, cfg, k, before)
    ensures DistinctPins(before)
    ensures forall j | 0 <= j < k :: WellPlaced(b, cfg.channels[j], before[j])
    ensures forall j | k <= j < MAX_OUTPUT_CHANNELS :: before[j] == DEFAULT_OUTPUT
  {
    ApplyIsSound(b, Upto(cfg, k));
    hide Apply, Refuses, DistinctPins;
    forall j | 0 <= j < MAX_OUTPUT_CHANNELS
      ensures WellPlaced(b, Upto(cfg, k).channels[j], before[j])
    {}
    assert EncodeChannel(DEFAULT_OUTPUT).used == 0;
  }
}
