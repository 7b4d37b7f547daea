/**
 The rollback of applyPersistedConfig (main/rc_model.cpp): the old channels are put back
 one at a time while later, partially applied channels still hold their new pins.
 */
module Rollback {
  import opened Wrappers
  import opened RcTypes
  import opened RcConfig
  import opened OutputPins

  type Flags = s: seq<bool> | |s| == MAX_OUTPUT_CHANNELS witness seq(24, i => false)

  /** The table and the attach flags of the channels restored so far. */
  datatype Restored = Restored(outs: Outputs, attached: Flags)

  function NoFlags(): (r: Flags)
    ensures forall i | 0 <= i < MAX_OUTPUT_CHANNELS :: !r[i]
  {
    seq(MAX_OUTPUT_CHANNELS, i => false)
  }

  /** Channel `i` put back, and set up again if it was an attached PWM channel. */
  function RestoreOne(b: Board, s: Restored, prior: Outputs, oldPwm: Flags, i: nat): Restored
    requires i < MAX_OUTPUT_CHANNELS
  {
    var back := s.outs[i := prior[i]];
    if prior[i].used && oldPwm[i] then
      match Setup(b, back, i)
      case Some(after) => Restored(after, s.attached[i := prior[i].kind == Pwm])
      case None => Restored(back, s.attached[i := false])
    else Restored(back, s.attached[i := false])
  }

  function RestoreFrom(b: Board, s: Restored, prior: Outputs, oldPwm: Flags, i: nat): Restored
    requires i <= MAX_OUTPUT_CHANNELS
    decreases MAX_OUTPUT_CHANNELS - i
  {
    if i == MAX_OUTPUT_CHANNELS then s else RestoreFrom(b, RestoreOne(b, s, prior, oldPwm, i), prior, oldPwm, i + 1)
  }

  /** Channels already passed are never touched again, and channels not yet reached are still the partial ones. */
  lemma {:induction false} RestoreKeepsEarlier(b: Board, s: Restored, prior: Outputs, oldPwm: Flags, i: nat)
    requires i <= MAX_OUTPUT_CHANNELS
    ensures var r := RestoreFrom(b, s, prior, oldPwm, i);
            forall j | 0 <= j < i :: r.outs[j] == s.outs[j] && r.attached[j] == s.attached[j]
    decreases MAX_OUTPUT_CHANNELS - i
  {
    if i < MAX_OUTPUT_CHANNELS {
      RestoreOneEffect(b, s, prior, oldPwm, i);
      hide RestoreOne;
      RestoreKeepsEarlier(b, RestoreOne(b, s, prior, oldPwm, i), prior, oldPwm, i + 1);
    }
  }

  /** One restore step changes slot `i` only, and gets every field but the pin right. */
  lemma RestoreOneEffect(b: Board, s: Restored, prior: Outputs, oldPwm: Flags, i: nat)
    requires i < MAX_OUTPUT_CHANNELS
    ensures var r := RestoreOne(b, s, prior, oldPwm, i);
            && (forall j | 0 <= j < MAX_OUTPUT_CHANNELS && j != i :: r.outs[j] == s.outs[j] && r.attached[j] == s.attached[j])
            && r.outs[i] == prior[i].(pin := r.outs[i].pin)
            && (r.attached[i] ==> prior[i].used && oldPwm[i])
            && (!(prior[i].used && oldPwm[i]) ==> r.outs[i] == prior[i])
  {
    var back := s.outs[i := prior[i]];
    if prior[i].used && oldPwm[i] && Setup(b, back, i).Some? {
      SetupEffect(b, back, i);
    }
  }

  /** After a rollback every field of every channel is the old one, except possibly the pin. */
  lemma {:induction false} RollbackKeepsAllButPins(b: Board, s: Restored, prior: Outputs, oldPwm: Flags, i: nat)
    requires i <= MAX_OUTPUT_CHANNELS
    ensures var r := RestoreFrom(b, s, prior, oldPwm, i).outs;
            forall j | i <= j < MAX_OUTPUT_CHANNELS :: r[j] == prior[j].(pin := r[j].pin) && (!oldPwm[j] ==> r[j] == prior[j])
    decreases MAX_OUTPUT_CHANNELS - i
  {
    if i < MAX_OUTPUT_CHANNELS {
      var s' := RestoreOne(b, s, prior, oldPwm, i);
      RestoreOneEffect(b, s, prior, oldPwm, i);
      hide RestoreOne;
      RollbackKeepsAllButPins(b, s', prior, oldPwm, i + 1);
      RestoreKeepsEarlier(b, s', prior, oldPwm, i + 1);
    }
  }

  /** The rollback of a whole partial table. */
  function RestoreAll(b: Board, partial: Outputs, prior: Outputs, oldPwm: Flags): Restored {
    RestoreFrom(b, Restored(partial, NoFlags()), prior, oldPwm, 0)
  }

  // ----- When the pins come back too -----

  /** Every attached channel was a PWM channel that its board attaches on its pin. */
  predicate OldWasSound(b: Board, prior: Outputs, oldPwm: Flags) {
    forall i | 0 <= i < MAX_OUTPUT_CHANNELS && oldPwm[i] :: AttachedSoundly(b, prior[i])
  }

  predicate AttachedSoundly(b: Board, o: Output) {
    o.used && o.kind == Pwm && b.hasPwm(o.pin) && b.attaches(o.pin)
  }

  /** A later, partially applied channel sits on the pin channel `i` is about to ask for. */
  predicate LaterClash(partial: Outputs, prior: Outputs, oldPwm: Flags, i: nat)
    requires i < MAX_OUTPUT_CHANNELS
  {
    oldPwm[i] && exists j | i < j < MAX_OUTPUT_CHANNELS :: partial[j].used && partial[j].pin == prior[i].pin
  }

  /** So does an earlier one, which it already did before. */
  predicate OldClash(prior: Outputs, oldPwm: Flags, i: nat)
    requires i < MAX_OUTPUT_CHANNELS
  {
    oldPwm[i] && exists j | 0 <= j < i :: prior[j].used && prior[j].pin == prior[i].pin
  }

  predicate Clash(partial: Outputs, prior: Outputs, oldPwm: Flags, i: nat)
    requires i < MAX_OUTPUT_CHANNELS
  {
    LaterClash(partial, prior, oldPwm, i) || OldClash(prior, oldPwm, i)
  }

  predicate FullyRestored(r: Restored, prior: Outputs, oldPwm: Flags) {
    r.outs == prior && r.attached == oldPwm
  }

  lemma ClashIsTaken(b: Board, s: Restored, partial: Outputs, prior: Outputs, oldPwm: Flags, i: nat)
    requires i < MAX_OUTPUT_CHANNELS && oldPwm[i]
    requires forall j | 0 <= j < i :: s.outs[j] == prior[j]
    requires forall j | i <= j < MAX_OUTPUT_CHANNELS :: s.outs[j] == partial[j]
    ensures Clash(partial, prior, oldPwm, i) <==> PinTaken(s.outs[i := prior[i]], prior[i].pin, i)
  {
    var back := s.outs[i := prior[i]];
    if LaterClash(partial, prior, oldPwm, i) {
      var j :| i < j < MAX_OUTPUT_CHANNELS && partial[j].used && partial[j].pin == prior[i].pin;
      assert back[j].used && back[j].pin == prior[i].pin;
    }
    if OldClash(prior, oldPwm, i) {
      var j :| 0 <= j < i && prior[j].used && prior[j].pin == prior[i].pin;
      assert back[j].used && back[j].pin == prior[i].pin;
    }
    if PinTaken(back, prior[i].pin, i) {
      var j :| 0 <= j < MAX_OUTPUT_CHANNELS && j != i && back[j].used && back[j].pin == prior[i].pin;
      assert back[j] == if j < i then prior[j] else partial[j];
    }
  }

  lemma StepExactIff(b: Board, s: Restored, partial: Outputs, prior: Outputs, oldPwm: Flags, i: nat)
    requires i < MAX_OUTPUT_CHANNELS && OldWasSound(b, prior, oldPwm)
    requires forall j | 0 <= j < i :: s.outs[j] == prior[j]
    requires forall j | i <= j < MAX_OUTPUT_CHANNELS :: s.outs[j] == partial[j]
    ensures var r := RestoreOne(b, s, prior, oldPwm, i);
            r.outs[i] == prior[i] && r.attached[i] == oldPwm[i] <==> !Clash(partial, prior, oldPwm, i)
  {
    var back := s.outs[i := prior[i]];
    if oldPwm[i] {
      ClashIsTaken(b, s, partial, prior, oldPwm, i);
      assert AttachedSoundly(b, prior[i]);
      hide Clash;
      if Setup(b, back, i).Some? {
        SetupEffect(b, back, i);
      }
      assert Usable(b, back, i, back[i].pin) <==> !PinTaken(back, prior[i].pin, i);
      if PinTaken(back, prior[i].pin, i) && Setup(b, back, i).Some? {
        TakenPinIsLeft(b, back, i);
      }
    }
  }

  /** A channel whose pin is taken is moved elsewhere. */
  lemma TakenPinIsLeft(b: Board, outs: Outputs, i: nat)
    requires i < MAX_OUTPUT_CHANNELS && PinTaken(outs, outs[i].pin, i) && Setup(b, outs, i).Some?
    ensures Setup(b, outs, i).value[i].pin != outs[i].pin
  {
    SetupEffect(b, outs, i);
    var after := Setup(b, outs, i).value;
    var j :| 0 <= j < MAX_OUTPUT_CHANNELS && j != i && outs[j].used && outs[j].pin == outs[i].pin;
    assert after[j] == outs[j];
    hide Setup;
  }

  lemma {:induction false} RestoreExactIff(b: Board, s: Restored, partial: Outputs, prior: Outputs, oldPwm: Flags, i: nat)
    requires i <= MAX_OUTPUT_CHANNELS && OldWasSound(b, prior, oldPwm)
    requires forall j | 0 <= j < i :: s.outs[j] == prior[j] && s.attached[j] == oldPwm[j]
    requires forall j | i <= j < MAX_OUTPUT_CHANNELS :: s.outs[j] == partial[j]
    ensures FullyRestored(RestoreFrom(b, s, prior, oldPwm, i), prior, oldPwm) <==>
            forall j | i <= j < MAX_OUTPUT_CHANNELS :: !Clash(partial, prior, oldPwm, j)
    decreases MAX_OUTPUT_CHANNELS - i
  {
    hide Clash, RestoreOne, OldWasSound;
    if i == MAX_OUTPUT_CHANNELS {
      assert s.outs == prior && s.attached == oldPwm;
    } else {
      var s' := RestoreOne(b, s, prior, oldPwm, i);
      RestoreOneEffect(b, s, prior, oldPwm, i);
      StepExactIff(b, s, partial, prior, oldPwm, i);
      if Clash(partial, prior, oldPwm, i) {
        RestoreKeepsEarlier(b, s', prior, oldPwm, i + 1);
      } else {
        RestoreExactIff(b, s', partial, prior, oldPwm, i + 1);
      }
    }
  }

  /**
   The rollback restores every pin and re-attaches every servo if and only if no attached
   channel shares its old pin with a later channel of the partial table, or with an earlier
   channel of the old one.
   */
  lemma RollbackIsExactIff(b: Board, partial: Outputs, prior: Outputs, oldPwm: Flags)
    requires OldWasSound(b, prior, oldPwm)
    ensures FullyRestored(RestoreAll(b, partial, prior, oldPwm), prior, oldPwm) <==>
            forall i | 0 <= i < MAX_OUTPUT_CHANNELS :: !Clash(partial, prior, oldPwm, i)
  {
    RestoreExactIff(b, Restored(partial, NoFlags()), partial, prior, oldPwm, 0);
  }

  // ----- The rollback of a rejected configuration -----

  /** The pins and attachments a run of applyPersistedConfig leaves are sound. */
  lemma AcceptedIsSound(b: Board, cfg: PersistedConfig, oldPwm: Flags)
    requires Apply(b, cfg).Applied?
    requires forall i | 0 <= i < MAX_OUTPUT_CHANNELS :: oldPwm[i] ==> Apply(b, cfg).outs[i].used && Apply(b, cfg).outs[i].kind == Pwm
    ensures OldWasSound(b, Apply(b, cfg).outs, oldPwm) && DistinctPins(Apply(b, cfg).outs)
  {
    ApplyIsSound(b, cfg);
    var prior := Apply(b, cfg).outs;
    hide Apply, DistinctPins, DecodeChannel, SourcesValid;
    forall i | 0 <= i < MAX_OUTPUT_CHANNELS && oldPwm[i]
      ensures b.hasPwm(prior[i].pin) && b.attaches(prior[i].pin)
    {
      assert WellPlaced(b, cfg.channels[i], prior[i]);
    }
  }

  /** The pin channel `j` of a configuration refused at `k` holds when the rollback starts. */
  function HeldPin(b: Board, cfg: PersistedConfig, k: nat, before: Outputs, j: nat): Option<uint8>
    requires j <= k < MAX_OUTPUT_CHANNELS
  {
    if j < k then if before[j].used then Some(before[j].pin) else None
    else if SourcesValid(cfg.channels[k]) then Some(LeftPin(b, cfg.channels[k], before, k))
    else None
  }

  /**
   A rejected configuration gives the old one back, pins and servos included, if and only
   if no channel up to the refused one was put on the old pin of an earlier attached
   channel, and no attached channel already shared its pin with an earlier one.
   */
  lemma RejectionIsExactIff(b: Board, cfg: PersistedConfig, prior: Outputs, oldPwm: Flags, k: nat, before: Outputs)
    requires OldWasSound(b, prior, oldPwm) && FirstRefusal(b, cfg, k, before)
    ensures Apply(b, cfg).Rejected?
    ensures FullyRestored(RestoreAll(b, Apply(b, cfg).partial, prior, oldPwm), prior, oldPwm) <==>
            && (forall i, j | 0 <= i < j <= k && oldPwm[i] :: HeldPin(b, cfg, k, before, j) != Some(prior[i].pin))
            && (forall i | 0 <= i < MAX_OUTPUT_CHANNELS :: !OldClash(prior, oldPwm, i))
  {
    RefusalLeaves(b, cfg, k, before);
    BeforeRefusal(b, cfg, k, before);
    var partial := Apply(b, cfg).partial;
    RollbackIsExactIff(b, partial, prior, oldPwm);
    forall j | 0 <= j < MAX_OUTPUT_CHANNELS
      ensures partial[j].used <==> j <= k && HeldPin(b, cfg, k, before, j).Some?
      ensures partial[j].used ==> HeldPin(b, cfg, k, before, j) == Some(partial[j].pin)
    {
      LeftoverAt(b, cfg, k, before, j);
    }
    assert k < MAX_OUTPUT_CHANNELS;
    hide *;
    ClashIff(b, cfg, k, before, partial, prior, oldPwm);
    ClashSplits(partial, prior, oldPwm);
  }

  lemma ClashSplits(partial: Outputs, prior: Outputs, oldPwm: Flags)
    ensures (forall i | 0 <= i < MAX_OUTPUT_CHANNELS :: !Clash(partial, prior, oldPwm, i)) <==>
            && (forall i | 0 <= i < MAX_OUTPUT_CHANNELS :: !LaterClash(partial, prior, oldPwm, i))
            && (forall i | 0 <= i < MAX_OUTPUT_CHANNELS :: !OldClash(prior, oldPwm, i))
  {
    hide LaterClash, OldClash;
    if forall i | 0 <= i < MAX_OUTPUT_CHANNELS :: !Clash(partial, prior, oldPwm, i) {
      forall i | 0 <= i < MAX_OUTPUT_CHANNELS
        ensures !LaterClash(partial, prior, oldPwm, i) && !OldClash(prior, oldPwm, i)
      {
        assert !Clash(partial, prior, oldPwm, i);
      }
    }
  }

  lemma LeftoverAt(b: Board, cfg: PersistedConfig, k: nat, before: Outputs, j: nat)
    requires k < MAX_OUTPUT_CHANNELS && j < MAX_OUTPUT_CHANNELS && cfg.channels[k].used != 0
    requires forall j | k <= j < MAX_OUTPUT_CHANNELS :: before[j] == DEFAULT_OUTPUT
    ensures var o := Leftover(b, cfg.channels[k], before, k)[j];
            && (o.used <==> j <= k && HeldPin(b, cfg, k, before, j).Some?)
            && (o.used ==> HeldPin(b, cfg, k, before, j) == Some(o.pin))
  {
    hide LeftPin, SourcesValid;
    assert DecodeChannel(cfg.channels[k]).used;
  }

  lemma ClashIff(b: Board, cfg: PersistedConfig, k: nat, before: Outputs, partial: Outputs, prior: Outputs, oldPwm: Flags)
    requires k < MAX_OUTPUT_CHANNELS
    requires forall j | 0 <= j < MAX_OUTPUT_CHANNELS :: partial[j].used <==> j <= k && HeldPin(b, cfg, k, before, j).Some?
    requires forall j | 0 <= j < MAX_OUTPUT_CHANNELS :: partial[j].used ==> HeldPin(b, cfg, k, before, j) == Some(partial[j].pin)
    ensures (forall i | 0 <= i < MAX_OUTPUT_CHANNELS :: !LaterClash(partial, prior, oldPwm, i)) <==>
            forall i, j | 0 <= i < j <= k && oldPwm[i] :: HeldPin(b, cfg, k, before, j) != Some(prior[i].pin)
  {
    hide HeldPin;
    if forall i | 0 <= i < MAX_OUTPUT_CHANNELS :: !LaterClash(partial, prior, oldPwm, i) {
      forall i, j | 0 <= i < j <= k && oldPwm[i]
        ensures HeldPin(b, cfg, k, before, j) != Some(prior[i].pin)
      {
        assert !LaterClash(partial, prior, oldPwm, i);
        assert partial[j].used ==> partial[j].pin != prior[i].pin;
      }
    } else {
      var i :| 0 <= i < MAX_OUTPUT_CHANNELS && LaterClash(partial, prior, oldPwm, i);
      var j :| i < j < MAX_OUTPUT_CHANNELS && partial[j].used && partial[j].pin == prior[i].pin;
      assert HeldPin(b, cfg, k, before, j) == Some(prior[i].pin);
    }
  }

  /** The channels of a configuration before `k` ask for distinct pins the board can drive them on. */
  predicate PrefixPlaceable(b: Board, cfg: PersistedConfig, k: nat)
    requires k <= MAX_OUTPUT_CHANNELS
  {
    && DistinctPins(WantedOutputs(Upto(cfg, k)))
    && forall j | 0 <= j < k :: Placeable(b, cfg.channels[j])
  }

  /**
   The same in the configuration's own terms: when the channels before the refused one ask
   for distinct drivable pins, they are on those pins, so the old configuration comes back
   if and only if none of them asks for, and the refused one is not left on, the old pin of
   an earlier attached channel.
   */
  lemma RejectionAsAskedIff(b: Board, cfg: PersistedConfig, prior: Outputs, oldPwm: Flags, k: nat)
    requires OldWasSound(b, prior, oldPwm)
    requires k < MAX_OUTPUT_CHANNELS && PrefixPlaceable(b, cfg, k)
    requires cfg.channels[k].used != 0 && Refuses(b, cfg.channels[k], WantedOutputs(Upto(cfg, k)), k)
    ensures Apply(b, cfg).Rejected?
    ensures FullyRestored(RestoreAll(b, Apply(b, cfg).partial, prior, oldPwm), prior, oldPwm) <==>
            && (forall i | 0 <= i < k && oldPwm[i] ::
                  && (forall j | i < j < k && cfg.channels[j].used != 0 :: cfg.channels[j].pin != prior[i].pin)
                  && (SourcesValid(cfg.channels[k]) ==>
                        LeftPin(b, cfg.channels[k], WantedOutputs(Upto(cfg, k)), k) != prior[i].pin))
            && (forall i | 0 <= i < MAX_OUTPUT_CHANNELS :: !OldClash(prior, oldPwm, i))
  {
    var asked := Upto(cfg, k);
    var before := WantedOutputs(asked);
    PrefixAccepted(b, cfg, k);
    assert FirstRefusal(b, cfg, k, before);
    RejectionIsExactIff(b, cfg, prior, oldPwm, k, before);
    forall j | 0 <= j < k
      ensures HeldPin(b, cfg, k, before, j) == if cfg.channels[j].used != 0 then Some(cfg.channels[j].pin) else None
    {
      assert before[j] == Wanted(cfg.channels[j]);
    }
    var left := HeldPin(b, cfg, k, before, k);
    assert left == if SourcesValid(cfg.channels[k]) then Some(LeftPin(b, cfg.channels[k], before, k)) else None;
    hide Apply, RestoreAll, FullyRestored, HeldPin, OldWasSound, LeftPin, SourcesValid, Refuses, PrefixPlaceable, Upto, WantedOutputs, OldClash;
    HeldByPrefix(b, cfg, k, before, prior, oldPwm);
  }

  lemma HeldByPrefix(b: Board, cfg: PersistedConfig, k: nat, before: Outputs, prior: Outputs, oldPwm: Flags)
    requires k < MAX_OUTPUT_CHANNELS
    requires forall j | 0 <= j < k ::
               HeldPin(b, cfg, k, before, j) == if cfg.channels[j].used != 0 then Some(cfg.channels[j].pin) else None
    ensures (forall i, j | 0 <= i < j <= k && oldPwm[i] :: HeldPin(b, cfg, k, before, j) != Some(prior[i].pin)) <==>
            forall i | 0 <= i < k && oldPwm[i] ::
              && (forall j | i < j < k && cfg.channels[j].used != 0 :: cfg.channels[j].pin != prior[i].pin)
              && HeldPin(b, cfg, k, before, k) != Some(prior[i].pin)
  {
    hide HeldPin;
    if forall i, j | 0 <= i < j <= k && oldPwm[i] :: HeldPin(b, cfg, k, before, j) != Some(prior[i].pin) {
      forall i, j | 0 <= i < j < k && oldPwm[i] && cfg.channels[j].used != 0
        ensures cfg.channels[j].pin != prior[i].pin
      {
        assert HeldPin(b, cfg, k, before, j) != Some(prior[i].pin);
      }
    }
  }

  lemma PrefixAccepted(b: Board, cfg: PersistedConfig, k: nat)
    requires k < MAX_OUTPUT_CHANNELS && PrefixPlaceable(b, cfg, k)
    ensures Apply(b, Upto(cfg, k)) == Applied(WantedOutputs(Upto(cfg, k)))
  {
    var asked := Upto(cfg, k);
    hide Apply, WantedOutputs, Upto, DistinctPins, SourcesValid;
    forall j | 0 <= j < MAX_OUTPUT_CHANNELS
      ensures Placeable(b, asked.channels[j])
    {
      assert j < k ==> asked.channels[j] == cfg.channels[j];
      assert j >= k ==> asked.channels[j].used == 0;
    }
    AcceptedWithoutRemap(b, asked);
  }

  // ----- A configuration whose rejection moves a pin -----

  /** Channel 1 asks for pin 5, and channel 2 names a source that does not exist. */
  function MovingConfig(): PersistedConfig {
    var bad := HELD.(sourceA := 100);
    Export(BlankInputs(), BlankOutputs()[1 := HELD][2 := bad])
  }

  lemma MovingConfigIsRejected(b: Board)
    requires b.hasPwm(5) && b.attaches(5)
    ensures Apply(b, MovingConfig()) == Rejected(OnlySlot(1, HELD), BadSource)
  {
    hide Finish;
    var cfg := MovingConfig();
    var blank := BlankOutputs();
    assert cfg.channels[0] == EncodeChannel(DEFAULT_OUTPUT);
    assert cfg.channels[1] == EncodeChannel(HELD);
    assert cfg.channels[2] == EncodeChannel(HELD.(sourceA := 100));
    ChannelRoundTrip(HELD);
    PlaceableIsKept(b, cfg.channels[1], blank, 1);
    assert blank[1 := HELD] == OnlySlot(1, HELD);
    assert ApplyOne(b, cfg.channels[2], OnlySlot(1, HELD), 2) == Rejected(OnlySlot(1, HELD), BadSource);
    hide ApplyOne;
    assert ApplyFrom(b, cfg, OnlySlot(1, HELD), 2) == Rejected(OnlySlot(1, HELD), BadSource);
    assert ApplyFrom(b, cfg, blank, 1) == Rejected(OnlySlot(1, HELD), BadSource);
  }

  /** The rollback does not always bring the old configuration back: channel 0 loses pin 5 to the rejected channel 1. */
  lemma RollbackCanMovePins(b: Board)
    requires b.hasPwm(5) && b.attaches(5)
    ensures var prior, oldPwm := OnlySlot(0, HELD), seq(MAX_OUTPUT_CHANNELS, i => i == 0);
            && OldWasSound(b, prior, oldPwm)
            && Apply(b, MovingConfig()).Rejected?
            && !FullyRestored(RestoreAll(b, Apply(b, MovingConfig()).partial, prior, oldPwm), prior, oldPwm)
  {
    MovingConfigIsRejected(b);
    hide Apply, MovingConfig, RestoreAll;
    var prior, oldPwm := OnlySlot(0, HELD), seq(MAX_OUTPUT_CHANNELS, i => i == 0);
    var partial := OnlySlot(1, HELD);
    assert partial[1].used && partial[1].pin == prior[0].pin;
    assert LaterClash(partial, prior, oldPwm, 0);
    assert Clash(partial, prior, oldPwm, 0);
    hide Clash, LaterClash, FullyRestored;
    RollbackIsExactIff(b, partial, prior, oldPwm);
  }

  // ----- Whether pins stay distinct -----

  /** Each of the first `n` channels that has a servo holds a pin no earlier channel has. */
  predicate ServosApart(s: Restored, n: nat)
    requires n <= MAX_OUTPUT_CHANNELS
  {
    forall a, c | 0 <= a < c < n && s.outs[a].used && s.attached[c] :: s.outs[a].pin != s.outs[c].pin
  }

  lemma {:induction false} RestoredApart(b: Board, s: Restored, prior: Outputs, oldPwm: Flags, i: nat)
    requires i <= MAX_OUTPUT_CHANNELS && ServosApart(s, i)
    ensures ServosApart(RestoreFrom(b, s, prior, oldPwm, i), MAX_OUTPUT_CHANNELS)
    decreases MAX_OUTPUT_CHANNELS - i
  {
    hide RestoreOne;
    if i < MAX_OUTPUT_CHANNELS {
      var s' := RestoreOne(b, s, prior, oldPwm, i);
      RestoreOneEffect(b, s, prior, oldPwm, i);
      RestoreOneApart(b, s, prior, oldPwm, i);
      assert ServosApart(s', i + 1);
      hide ServosApart;
      RestoredApart(b, s', prior, oldPwm, i + 1);
    }
  }

  lemma RestoreOneApart(b: Board, s: Restored, prior: Outputs, oldPwm: Flags, i: nat)
    requires i < MAX_OUTPUT_CHANNELS
    ensures var r := RestoreOne(b, s, prior, oldPwm, i);
            && (r.attached[i] ==>
                  && AttachedSoundly(b, r.outs[i])
                  && forall a | 0 <= a < MAX_OUTPUT_CHANNELS && a != i && r.outs[a].used :: r.outs[a].pin != r.outs[i].pin)
            && (!r.attached[i] ==> r.outs[i] == prior[i])
  {
    var back := s.outs[i := prior[i]];
    if prior[i].used && oldPwm[i] && Setup(b, back, i).Some? {
      SetupEffect(b, back, i);
    }
  }

  /** After any rollback each attached channel is soundly attached, and each other one is exactly the old one. */
  lemma {:induction false} RestoredIsSound(b: Board, s: Restored, prior: Outputs, oldPwm: Flags, i: nat)
    requires i <= MAX_OUTPUT_CHANNELS
    ensures var r := RestoreFrom(b, s, prior, oldPwm, i);
            forall j | i <= j < MAX_OUTPUT_CHANNELS :: if r.attached[j] then AttachedSoundly(b, r.outs[j]) else r.outs[j] == prior[j]
    decreases MAX_OUTPUT_CHANNELS - i
  {
    if i < MAX_OUTPUT_CHANNELS {
      var s' := RestoreOne(b, s, prior, oldPwm, i);
      RestoreOneApart(b, s, prior, oldPwm, i);
      hide RestoreOne;
      RestoredIsSound(b, s', prior, oldPwm, i + 1);
      RestoreKeepsEarlier(b, s', prior, oldPwm, i + 1);
    }
  }

  /** No channel put back without a servo finds an earlier one on its old pin. */
  predicate PutBackApart(r: Restored, prior: Outputs) {
    forall a, c | 0 <= a < c < MAX_OUTPUT_CHANNELS && prior[c].used && !r.attached[c] ::
      r.outs[a].used ==> r.outs[a].pin != prior[c].pin
  }

  /**
   A rollback leaves distinct pins if and only if no earlier channel was moved onto the pin
   of a channel that is put back unchecked: a switch, or a PWM channel that got no servo.
   */
  lemma RollbackIsDistinctIff(b: Board, partial: Outputs, prior: Outputs, oldPwm: Flags)
    ensures var r := RestoreAll(b, partial, prior, oldPwm);
            && OldWasSound(b, r.outs, r.attached)
            && (DistinctPins(r.outs) <==> PutBackApart(r, prior))
  {
    var s := Restored(partial, NoFlags());
    RestoredApart(b, s, prior, oldPwm, 0);
    RestoredIsSound(b, s, prior, oldPwm, 0);
    RollbackKeepsAllButPins(b, s, prior, oldPwm, 0);
    hide RestoreFrom, AttachedSoundly;
    var r := RestoreAll(b, partial, prior, oldPwm);
    forall j | 0 <= j < MAX_OUTPUT_CHANNELS
      ensures r.outs[j].used == prior[j].used && (!r.attached[j] ==> r.outs[j] == prior[j])
    {}
    hide RestoreAll;
    if PutBackApart(r, prior) {
      forall a, c | 0 <= a < c < MAX_OUTPUT_CHANNELS && r.outs[a].used && r.outs[c].used
        ensures r.outs[a].pin != r.outs[c].pin
      {
        if !r.attached[c] {
          assert r.outs[c] == prior[c];
        }
      }
    }
  }

  // ----- Runs of accepted and rejected configurations -----

  function PwmFlags(outs: Outputs): (r: Flags)
    ensures forall i | 0 <= i < MAX_OUTPUT_CHANNELS :: r[i] == (outs[i].used && outs[i].kind == Pwm)
  {
    seq(MAX_OUTPUT_CHANNELS, i requires 0 <= i < MAX_OUTPUT_CHANNELS => outs[i].used && outs[i].kind == Pwm)
  }

  /** The outputs and their attachments after one configuration, accepted or rejected. */
  function ApplyStep(b: Board, s: Restored, cfg: PersistedConfig): Restored {
    match Apply(b, cfg)
    case Applied(outs) => Restored(outs, PwmFlags(outs))
    case Rejected(partial, _) => RestoreAll(b, partial, s.outs, s.attached)
  }

  /** A run from a start without outputs. */
  predicate IsRun(b: Board, states: seq<Restored>, cfgs: seq<PersistedConfig>) {
    && |states| == |cfgs| + 1
    && states[0] == Restored(BlankOutputs(), NoFlags())
    && forall i | 0 <= i < |cfgs| :: states[i + 1] == ApplyStep(b, states[i], cfgs[i])
  }

  lemma StepIsSound(b: Board, s: Restored, cfg: PersistedConfig)
    ensures var r := ApplyStep(b, s, cfg);
            && OldWasSound(b, r.outs, r.attached)
            && (Apply(b, cfg).Applied? ==> DistinctPins(r.outs))
            && (Apply(b, cfg).Rejected? ==> (DistinctPins(r.outs) <==> PutBackApart(r, s.outs)))
  {
    match Apply(b, cfg)
    case Applied(outs) =>
      AcceptedIsSound(b, cfg, PwmFlags(outs));
      hide Apply;
    case Rejected(partial, _) =>
      RollbackIsDistinctIff(b, partial, s.outs, s.attached);
      hide Apply, RestoreAll, PutBackApart;
  }

  /**
   Over every run, attached channels are soundly attached, so the results on rejections
   apply to each of them; and all pins are distinct at a moment exactly when the last
   configuration was accepted, or its rollback put back no channel onto a pin taken meanwhile.
   */
  lemma RunIsSound(b: Board, states: seq<Restored>, cfgs: seq<PersistedConfig>, i: nat)
    requires IsRun(b, states, cfgs) && i <= |cfgs|
    ensures OldWasSound(b, states[i].outs, states[i].attached)
    ensures DistinctPins(states[i].outs) <==>
            i == 0 || Apply(b, cfgs[i - 1]).Applied? || PutBackApart(states[i], states[i - 1].outs)
  {
    if i > 0 {
      StepIsSound(b, states[i - 1], cfgs[i - 1]);
      hide ApplyStep, Apply, PutBackApart;
    }
  }

  /** A rejection can leave two outputs on one pin: channel 0 is moved to pin 2, and then the switch of channel 1 is put back there. */
  lemma RollbackCanSharePin(b: Board)
    requires !b.hasPwm(0) && !b.hasPwm(1) && b.hasPwm(2) && b.attaches(2) && b.hasPwm(5) && b.attaches(5)
    ensures var prior := BlankOutputs()[0 := HELD][1 := HELD.(kind := Switch, pin := 2)];
            && DistinctPins(prior) && OldWasSound(b, prior, PwmFlags(prior))
            && Apply(b, MovingConfig()).Rejected?
            && !DistinctPins(RestoreAll(b, Apply(b, MovingConfig()).partial, prior, PwmFlags(prior)).outs)
  {
    var prior := BlankOutputs()[0 := HELD][1 := HELD.(kind := Switch, pin := 2)];
    var flags := PwmFlags(prior);
    var s0 := Restored(OnlySlot(1, HELD), NoFlags());
    MovingConfigIsRejected(b);
    ChannelZeroMoves(b);
    hide Apply, MovingConfig, Setup;
    hide RestoreOne, RestoreFrom;
    FirstTwoShare(b, s0, prior, flags);
    var s2 := RestoreOne(b, RestoreOne(b, s0, prior, flags, 0), prior, flags, 1);
    RestoreKeepsEarlier(b, s2, prior, flags, 2);
    RestoreTwo(b, s0, prior, flags);
    var r := RestoreAll(b, OnlySlot(1, HELD), prior, flags);
    assert r.outs[0] == HELD.(pin := 2) && r.outs[1] == prior[1];
  }

  lemma FirstTwoShare(b: Board, s: Restored, prior: Outputs, oldPwm: Flags)
    requires s.outs == OnlySlot(1, HELD) && prior[0] == HELD && oldPwm[0] && !oldPwm[1]
    requires Setup(b, OnlySlot(1, HELD)[0 := HELD], 0) == Some(OnlySlot(1, HELD)[0 := HELD][0 := HELD.(pin := 2)])
    ensures var s2 := RestoreOne(b, RestoreOne(b, s, prior, oldPwm, 0), prior, oldPwm, 1);
            s2.outs[0] == HELD.(pin := 2) && s2.outs[1] == prior[1]
  {
    hide Setup;
  }

  /** While channel 1 holds pin 5, channel 0 is set up on pin 2 instead. */
  lemma ChannelZeroMoves(b: Board)
    requires !b.hasPwm(0) && !b.hasPwm(1) && b.hasPwm(2) && b.attaches(2)
    ensures var back := OnlySlot(1, HELD)[0 := HELD];
            Setup(b, back, 0) == Some(back[0 := HELD.(pin := 2)])
  {
    var back := OnlySlot(1, HELD)[0 := HELD];
    assert back[1].used && back[1].pin == 5;
    assert PinTaken(back, 5, 0) && !PinTaken(back, 2, 0);
    assert Usable(b, back, 0, 2) && !Usable(b, back, 0, 0) && !Usable(b, back, 0, 1) && !Usable(b, back, 0, 5);
    hide Usable, PinTaken;
    assert ScanUsable(b, back, 0, 0) == Some(2);
  }

  lemma RestoreTwo(b: Board, s: Restored, prior: Outputs, oldPwm: Flags)
    ensures RestoreFrom(b, s, prior, oldPwm, 0) ==
              RestoreFrom(b, RestoreOne(b, RestoreOne(b, s, prior, oldPwm, 0), prior, oldPwm, 1), prior, oldPwm, 2)
  {
    hide RestoreOne;
  }
}
