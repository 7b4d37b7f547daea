/**
 Exporting the running configuration and applying the result again
 (exportCurrentConfig and applyPersistedConfig in main/rc_model.cpp).
 */
module ConfigRoundTrip {
  import opened RcTypes
  import opened RcConfig
  import opened OutputPins

  /** A channel an earlier apply or the web handlers may have left behind. */
  predicate Settled(b: Board, o: Output) {
    if !o.used then o == DEFAULT_OUTPUT
    else
      && ChannelInRange(o)
      && SourceValid(o.sourceA) && SourceValid(o.sourceB) && SourceValid(o.sourceC)
      && (o.kind == Pwm ==> b.hasPwm(o.pin) && b.attaches(o.pin))
  }

  predicate SettledOutputs(b: Board, outs: Outputs) {
    DistinctPins(outs) && forall i | 0 <= i < MAX_OUTPUT_CHANNELS :: Settled(b, outs[i])
  }

  function SwapOutput(o: Output): Output {
    if o.used then SwapChannel(o) else o
  }

  /** Every channel with its failsafe mode as re-read from the packed form. */
  function SwapOutputs(outs: Outputs): (r: Outputs)
    ensures forall i | 0 <= i < MAX_OUTPUT_CHANNELS :: r[i] == SwapOutput(outs[i])
  {
    seq(MAX_OUTPUT_CHANNELS, i requires 0 <= i < MAX_OUTPUT_CHANNELS => SwapOutput(outs[i]))
  }

  lemma SlotSurvives(b: Board, o: Output)
    requires Settled(b, o)
    ensures Wanted(EncodeChannel(o)) == SwapOutput(o) && Placeable(b, EncodeChannel(o)) && Settled(b, SwapOutput(o))
  {
    if o.used {
      ChannelRoundTrip(o);
      SwapTwice(o);
    }
  }

  /** One trip keeps every field but the failsafe mode, where Center and Max are exchanged. */
  lemma ExportThenApply(b: Board, inputs: Inputs, outs: Outputs)
    requires SettledOutputs(b, outs)
    ensures Apply(b, Export(inputs, outs)) == Applied(SwapOutputs(outs))
    ensures SettledOutputs(b, SwapOutputs(outs))
  {
    hide Settled;
    var cfg := Export(inputs, outs);
    forall i | 0 <= i < MAX_OUTPUT_CHANNELS
      ensures WantedOutputs(cfg)[i] == SwapOutputs(outs)[i] && Placeable(b, cfg.channels[i])
      ensures Settled(b, SwapOutputs(outs)[i])
      ensures SwapOutputs(outs)[i].used == outs[i].used && SwapOutputs(outs)[i].pin == outs[i].pin
    {
      SlotSurvives(b, outs[i]);
    }
    hide Placeable, Wanted, SwapOutput;
    assert WantedOutputs(cfg) == SwapOutputs(outs);
    AcceptedWithoutRemap(b, cfg);
  }

  /** Whatever configuration is accepted, its channels are settled. */
  lemma AcceptedIsSettled(b: Board, cfg: PersistedConfig)
    requires Apply(b, cfg).Applied?
    ensures SettledOutputs(b, Apply(b, cfg).outs)
  {
    ApplyIsSound(b, cfg);
    var outs := Apply(b, cfg).outs;
    hide Apply, DistinctPins;
    forall i | 0 <= i < MAX_OUTPUT_CHANNELS
      ensures Settled(b, outs[i])
    {
      assert WellPlaced(b, cfg.channels[i], outs[i]);
    }
  }

  /** An exported configuration has the format that apply and the preset store ask for. */
  lemma ExportIsCurrent(inputs: Inputs, outs: Outputs)
    ensures Export(inputs, outs).magic == CONFIG_MAGIC && Export(inputs, outs).version == CONFIG_VERSION
  {}

  /**
   What an accepted configuration writes back to NVS is accepted at the next start, on the
   same pins and with every field but the failsafe mode.
   */
  lemma StoredConfigIsAccepted(b: Board, cfg: PersistedConfig)
    requires Apply(b, cfg).Applied?
    ensures var outs := Apply(b, cfg).outs;
            var stored := Export(InputsOf(cfg), outs);
            && Apply(b, stored) == Applied(SwapOutputs(outs))
            && stored.magic == CONFIG_MAGIC && stored.version == CONFIG_VERSION
  {
    AcceptedIsSettled(b, cfg);
    ExportIsCurrent(InputsOf(cfg), Apply(b, cfg).outs);
    hide Apply, Export;
    ExportThenApply(b, InputsOf(cfg), Apply(b, cfg).outs);
  }

  /** Two trips are the identity on the whole configuration. */
  lemma TwoTripsAreIdentity(b: Board, inputs: Inputs, outs: Outputs)
    requires SettledOutputs(b, outs) && CleanInputs(inputs)
    ensures var once := Apply(b, Export(inputs, outs));
            && InputsOf(Export(inputs, outs)) == inputs
            && once.Applied? && Apply(b, Export(inputs, once.outs)) == Applied(outs)
  {
    ExportThenApply(b, inputs, outs);
    ExportThenApply(b, inputs, SwapOutputs(outs));
    InputsRoundTrip(inputs, outs);
    var twice := SwapOutputs(SwapOutputs(outs));
    forall i | 0 <= i < MAX_OUTPUT_CHANNELS
      ensures twice[i] == outs[i]
    {
      SwapTwice(outs[i]);
    }
    assert twice == outs;
  }

  /** One trip is the identity if and only if no used channel holds at Center or Max. */
  lemma OneTripIsIdentityIff(b: Board, inputs: Inputs, outs: Outputs)
    requires SettledOutputs(b, outs)
    ensures Apply(b, Export(inputs, outs)) == Applied(outs) <==>
            forall i | 0 <= i < MAX_OUTPUT_CHANNELS :: outs[i].used ==> outs[i].failsafe == Min
  {
    ExportThenApply(b, inputs, outs);
    var back := SwapOutputs(outs);
    forall i | 0 <= i < MAX_OUTPUT_CHANNELS
      ensures back[i] == outs[i] <==> (outs[i].used ==> outs[i].failsafe == Min)
    {
      assert back[i] == SwapOutput(outs[i]);
    }
    if forall i | 0 <= i < MAX_OUTPUT_CHANNELS :: outs[i].used ==> outs[i].failsafe == Min {
      assert back == outs;
    }
  }

  /** It is not always the identity: a channel that fails safe to Center comes back failing safe to Max. */
  lemma OneTripCanChange(b: Board, inputs: Inputs)
    requires b.hasPwm(5) && b.attaches(5)
    ensures var outs := OnlySlot(0, HELD.(failsafe := Center));
            SettledOutputs(b, outs) && Apply(b, Export(inputs, outs)) != Applied(outs)
  {
    var outs := OnlySlot(0, HELD.(failsafe := Center));
    hide Apply, Export;
    assert outs[0].used && outs[0].failsafe == Center;
    OneTripIsIdentityIff(b, inputs, outs);
  }
}
