/**
 The toggle state machines of main/rc_model.cpp (evaluateToggleVirtualInput and the
 per-input part of evaluateVirtualRuntime), and what a whole run of them amounts to:
 a counter of button presses read through a square or a triangle wave.
 */
module Toggles {
  import opened Wrappers
  import opened RcTypes
  import opened RcConfig
  import opened ControlInputs
  import opened SignalPath

  /** What the firmware remembers about one virtual input between ticks. */
  datatype Toggle = Toggle(
    pos: int, dir: int, primaryPrev: bool, secondaryPrev: bool, modifierPrev: bool, directPrev: bool)

  /** The buttons of one input as one tick sees them; Lost when there is no connected controller. */
  datatype Sample = Lost | Frame(primary: bool, secondary: bool, modifier: bool)

  function SampleOf(v: VirtualInput, pad: Pad): Sample {
    Frame(
      IsInputActive(v.primary, pad),
      v.secondary != NO_INPUT && IsInputActive(v.secondary, pad),
      ModifierPressed(v, pad))
  }

  // ----- One tick -----

  /** The position and direction after a tick on which the input is enabled. */
  function Moved(v: VirtualInput, positions: int, t: Toggle, primaryRise: bool, secondaryRise: bool, modifierRise: bool): Toggle {
    if modifierRise && positions == 3 && v.modifierFunction == Recenter then t.(pos := 1, dir := 1)
    else if positions == 2 && primaryRise then t.(pos := if t.pos == 0 then 1 else 0)
    else if positions == 3 && v.secondary != NO_INPUT then
      if primaryRise && !secondaryRise then t.(pos := 2)
      else if secondaryRise && !primaryRise then t.(pos := 0)
      else t
    else if primaryRise then
      var dir := if t.pos <= 0 then 1 else if t.pos >= 2 then -1 else t.dir;
      t.(pos := Constrain(t.pos + dir, 0, 2), dir := dir)
    else t
  }

  function ToggleValue(v: VirtualInput, positions: int, pos: int): real {
    if positions == 2 then
      if v.range == Bipolar then if pos != 0 then 1.0 else -1.0
      else if pos != 0 then 1.0 else 0.0
    else if v.range == Bipolar then (pos - 1) as real
    else pos as real * 0.5
  }

  /** One tick of a toggle input: its new state and the value it contributes. */
  function ToggleStep(v: VirtualInput, positions: int, t: Toggle, s: Sample): (Toggle, real) {
    match s
    case Lost => (Forget(t), 0.0)
    case Frame(primary, secondary, modifier) =>
      var seen := t.(primaryPrev := primary, secondaryPrev := secondary, modifierPrev := modifier);
      if !EnabledByModifier(v, modifier) then (seen, 0.0)
      else
        var moved := Moved(v, positions, seen, primary && !t.primaryPrev, secondary && !t.secondaryPrev, modifier && !t.modifierPrev);
        (moved, ToggleValue(v, positions, moved.pos))
  }

  /** Losing the controller clears the remembered buttons and keeps the position. */
  function Forget(t: Toggle): Toggle {
    t.(primaryPrev := false, secondaryPrev := false, modifierPrev := false, directPrev := false)
  }

  /** One tick of any virtual input, as evaluateVirtualRuntime updates it. */
  function RuntimeStep(powf: Power, v: VirtualInput, t: Toggle, ctl: Option<Pad>): (Toggle, real) {
    match ctl
    case None => (Forget(t), 0.0)
    case Some(pad) =>
      if v.inputType == Toggle2Pos then ToggleStep(v, 2, t, SampleOf(v, pad))
      else if v.inputType == Toggle3Pos then ToggleStep(v, 3, t, SampleOf(v, pad))
      else (Forget(t).(directPrev := IsInputActive(v.primary, pad), dir := 1), EvaluateDirect(powf, v, pad))
  }

  /** The state applyPersistedConfig gives an input. */
  function StartOf(v: VirtualInput, dir: int): Toggle {
    if v.inputType == Toggle2Pos then Toggle(0, dir, false, false, false, false)
    else if v.inputType == Toggle3Pos then Toggle(if v.range == Unipolar then 0 else 1, 1, false, false, false, false)
    else Toggle(0, 1, false, false, false, false)
  }

  /** An input starts with every button forgotten: a two-position toggle off, a three-position one at its neutral or low end, a direct one at rest. */
  lemma StartsForgotten(v: VirtualInput, dir: int)
    ensures var t := StartOf(v, dir);
            && !t.primaryPrev && !t.secondaryPrev && !t.modifierPrev && !t.directPrev
            && t.pos == (if v.inputType == Toggle3Pos && v.range == Bipolar then 1 else 0)
            && t.dir == (if v.inputType == Toggle2Pos then dir else 1)
  {}

  // ----- Whole runs -----

  function ToggleRun(v: VirtualInput, positions: int, start: Toggle, run: seq<Sample>): Toggle {
    if run == [] then start
    else ToggleStep(v, positions, ToggleRun(v, positions, start, run[..|run| - 1]), run[|run| - 1]).0
  }

  predicate PrimaryDown(s: Sample) {
    s.Frame? && s.primary
  }

  predicate ModifierDown(s: Sample) {
    s.Frame? && s.modifier
  }

  /** Tick `i` sees the primary button go down; a lost controller counts as a released button. */
  predicate Rises(run: seq<Sample>, i: nat)
    requires i < |run|
  {
    PrimaryDown(run[i]) && (i == 0 || !PrimaryDown(run[i - 1]))
  }

  /** A press the toggle acts on: it goes down on a tick on which the modifier lets it. */
  predicate Counts(v: VirtualInput, run: seq<Sample>, i: nat)
    requires i < |run|
  {
    Rises(run, i) && EnabledByModifier(v, run[i].modifier)
  }

  function Presses(v: VirtualInput, run: seq<Sample>): nat {
    if run == [] then 0
    else Presses(v, run[..|run| - 1]) + if Counts(v, run, |run| - 1) then 1 else 0
  }

  lemma RemembersLastTick(v: VirtualInput, positions: int, start: Toggle, run: seq<Sample>)
    requires !start.primaryPrev && !start.modifierPrev
    ensures var t := ToggleRun(v, positions, start, run);
            && (t.primaryPrev <==> run != [] && PrimaryDown(run[|run| - 1]))
            && (t.modifierPrev <==> run != [] && ModifierDown(run[|run| - 1]))
  {}

  /** The last tick of a run, in terms of the run's own history. */
  lemma LastStep(v: VirtualInput, positions: int, start: Toggle, run: seq<Sample>)
    requires run != [] && !start.primaryPrev && !start.modifierPrev
    requires run[|run| - 1].Frame?
    ensures var n := |run| - 1;
            var before := ToggleRun(v, positions, start, run[..n]);
            var s := run[n];
            var seen := before.(primaryPrev := s.primary, secondaryPrev := s.secondary, modifierPrev := s.modifier);
            var rise := Rises(run, n);
            var modifierRise := ModifierDown(s) && (n == 0 || !ModifierDown(run[n - 1]));
            ToggleRun(v, positions, start, run) ==
              if EnabledByModifier(v, s.modifier)
              then Moved(v, positions, seen, rise, s.secondary && !before.secondaryPrev, modifierRise)
              else seen
  {
    RemembersLastTick(v, positions, start, run[..|run| - 1]);
  }

  /** A two-position toggle stands at the parity of its counted presses, however they are spread over a run. */
  lemma {:induction false} TwoPositionsAreParity(v: VirtualInput, run: seq<Sample>, dir: int)
    requires v.inputType == Toggle2Pos
    ensures ToggleRun(v, 2, StartOf(v, dir), run).pos == Presses(v, run) % 2
    decreases |run|
  {
    if run != [] {
      var n := |run| - 1;
      TwoPositionsAreParity(v, run[..n], dir);
      if run[n].Frame? {
        LastStep(v, 2, StartOf(v, dir), run);
      }
    }
  }

  /** 0, 1, 2, 1, 0, 1, 2, 1, ... */
  function Wave(n: nat): int {
    [0, 1, 2, 1][n % 4]
  }

  /** Tick `i` recenters the toggle: the modifier goes down and its function is to center. */
  predicate Recenters(v: VirtualInput, run: seq<Sample>, i: nat)
    requires i < |run|
  {
    v.modifier != NO_INPUT && v.modifierFunction == Recenter && ModifierDown(run[i]) && (i == 0 || !ModifierDown(run[i - 1]))
  }

  /** How far along the wave the run is: presses since the start or the last recentering. */
  function Phase(v: VirtualInput, start: nat, run: seq<Sample>): nat {
    if run == [] then start
    else
      var n := |run| - 1;
      if Recenters(v, run, n) then 1
      else Phase(v, start, run[..n]) + if Counts(v, run, n) then 1 else 0
  }

  /** A modifier that is not configured is never seen pressed. */
  predicate Sampled(v: VirtualInput, run: seq<Sample>) {
    forall i | 0 <= i < |run| :: v.modifier == NO_INPUT ==> !ModifierDown(run[i])
  }

  predicate OnWave(t: Toggle, phase: nat) {
    t.pos == Wave(phase) && (phase % 4 == 1 ==> t.dir == 1) && (phase % 4 == 3 ==> t.dir == -1)
  }

  lemma WaveStep(v: VirtualInput, t: Toggle, phase: nat, secondaryRise: bool)
    requires OnWave(t, phase) && v.secondary == NO_INPUT
    ensures OnWave(Moved(v, 3, t, true, secondaryRise, false), phase + 1)
  {
    assert phase % 4 == 0 || phase % 4 == 1 || phase % 4 == 2 || phase % 4 == 3;
  }

  /** A single-button three-position toggle follows the triangle wave, one step per counted press. */
  lemma {:induction false} ThreePositionsAreWave(v: VirtualInput, run: seq<Sample>, dir: int)
    requires v.inputType == Toggle3Pos && v.secondary == NO_INPUT && Sampled(v, run)
    ensures OnWave(ToggleRun(v, 3, StartOf(v, dir), run), Phase(v, if v.range == Unipolar then 0 else 1, run))
    decreases |run|
  {
    hide OnWave, Moved;
    var start := if v.range == Unipolar then 0 else 1;
    var t0 := StartOf(v, dir);
    if run == [] {
      assert OnWave(t0, start) by { StartIsOnWave(v, dir); }
    } else {
      var n := |run| - 1;
      ThreePositionsAreWave(v, run[..n], dir);
      var before := ToggleRun(v, 3, t0, run[..n]);
      if run[n].Lost? {
        OnWaveIgnoresButtons(before, ToggleRun(v, 3, t0, run), Phase(v, start, run[..n]));
      } else {
        LastStep(v, 3, t0, run);
        var s := run[n];
        var seen := before.(primaryPrev := s.primary, secondaryPrev := s.secondary, modifierPrev := s.modifier);
        OnWaveIgnoresButtons(before, seen, Phase(v, start, run[..n]));
        MovedCases(v, seen, s.secondary && !before.secondaryPrev);
        if Counts(v, run, n) && !Recenters(v, run, n) {
          WaveStep(v, seen, Phase(v, start, run[..n]), s.secondary && !before.secondaryPrev);
        }
      }
    }
  }

  lemma StartIsOnWave(v: VirtualInput, dir: int)
    requires v.inputType == Toggle3Pos
    ensures OnWave(StartOf(v, dir), if v.range == Unipolar then 0 else 1)
  {}

  lemma OnWaveIgnoresButtons(t: Toggle, u: Toggle, phase: nat)
    requires OnWave(t, phase) && t.pos == u.pos && t.dir == u.dir
    ensures OnWave(u, phase)
  {}

  lemma MovedCases(v: VirtualInput, t: Toggle, secondaryRise: bool)
    requires v.secondary == NO_INPUT
    ensures forall rise :: v.modifierFunction == Recenter ==> OnWave(Moved(v, 3, t, rise, secondaryRise, true), 1)
    ensures forall rise :: v.modifierFunction != Recenter ==>
              Moved(v, 3, t, rise, secondaryRise, true) == Moved(v, 3, t, rise, secondaryRise, false)
    ensures Moved(v, 3, t, false, secondaryRise, false) == t
  {}

  lemma {:induction false} PhaseWithoutRecenter(v: VirtualInput, start: nat, run: seq<Sample>)
    requires v.modifier == NO_INPUT || v.modifierFunction != Recenter
    ensures Phase(v, start, run) == start + Presses(v, run)
    decreases |run|
  {
    if run != [] {
      PhaseWithoutRecenter(v, start, run[..|run| - 1]);
    }
  }

  /** With no recentering modifier the position is the wave at start plus presses. */
  lemma PlainThreePositions(v: VirtualInput, run: seq<Sample>, dir: int)
    requires v.inputType == Toggle3Pos && v.secondary == NO_INPUT && Sampled(v, run)
    requires v.modifier == NO_INPUT || v.modifierFunction != Recenter
    ensures ToggleRun(v, 3, StartOf(v, dir), run).pos == Wave((if v.range == Unipolar then 0 else 1) + Presses(v, run))
  {
    ThreePositionsAreWave(v, run, dir);
    PhaseWithoutRecenter(v, if v.range == Unipolar then 0 else 1, run);
  }

  // ----- Two dedicated buttons -----

  predicate SecondaryDown(s: Sample) {
    s.Frame? && s.secondary
  }

  /** Tick `i` sees the secondary button go down. */
  predicate SecondaryRises(run: seq<Sample>, i: nat)
    requires i < |run|
  {
    SecondaryDown(run[i]) && (i == 0 || !SecondaryDown(run[i - 1]))
  }

  /** Where the last deciding tick put the toggle: recentering at 1, a lone primary press at 2, a lone secondary press at 0. */
  function LastCommand(v: VirtualInput, start: int, run: seq<Sample>): int {
    if run == [] then start
    else
      var n := |run| - 1;
      if Recenters(v, run, n) then 1
      else if run[n].Lost? || !EnabledByModifier(v, run[n].modifier) then LastCommand(v, start, run[..n])
      else if Rises(run, n) && !SecondaryRises(run, n) then 2
      else if SecondaryRises(run, n) && !Rises(run, n) then 0
      else LastCommand(v, start, run[..n])
  }

  lemma RemembersSecondary(v: VirtualInput, positions: int, start: Toggle, run: seq<Sample>)
    requires !start.secondaryPrev
    ensures ToggleRun(v, positions, start, run).secondaryPrev <==> run != [] && SecondaryDown(run[|run| - 1])
  {
    hide EnabledByModifier;
  }

  lemma TwoButtonMove(v: VirtualInput, t: Toggle, primaryRise: bool, secondaryRise: bool, modifierRise: bool)
    requires v.secondary != NO_INPUT
    ensures Moved(v, 3, t, primaryRise, secondaryRise, modifierRise).pos ==
              if modifierRise && v.modifierFunction == Recenter then 1
              else if primaryRise && !secondaryRise then 2
              else if secondaryRise && !primaryRise then 0
              else t.pos
  {}

  /** A three-position toggle with two buttons stands where the last lone press or recentering put it. */
  lemma {:induction false} TwoButtonsCommand(v: VirtualInput, run: seq<Sample>, dir: int)
    requires v.inputType == Toggle3Pos && v.secondary != NO_INPUT && Sampled(v, run)
    ensures ToggleRun(v, 3, StartOf(v, dir), run).pos == LastCommand(v, if v.range == Unipolar then 0 else 1, run)
    decreases |run|
  {
    hide Moved;
    if run != [] {
      var n := |run| - 1;
      TwoButtonsCommand(v, run[..n], dir);
      if run[n].Frame? {
        LastStep(v, 3, StartOf(v, dir), run);
        RemembersSecondary(v, 3, StartOf(v, dir), run[..n]);
        var before := ToggleRun(v, 3, StartOf(v, dir), run[..n]);
        var s := run[n];
        var seen := before.(primaryPrev := s.primary, secondaryPrev := s.secondary, modifierPrev := s.modifier);
        TwoButtonMove(v, seen, Rises(run, n), SecondaryRises(run, n), ModifierDown(s) && (n == 0 || !ModifierDown(run[n - 1])));
      }
    }
  }

  // ----- What a toggle contributes -----

  /** A bipolar toggle contributes -1, 0 or 1, and a unipolar one 0, 0.5 or 1, by position; without a controller, or disabled, nothing. */
  lemma ToggleLevels(v: VirtualInput, positions: int, t: Toggle, s: Sample)
    requires positions == 2 || positions == 3
    ensures var (after, level) := ToggleStep(v, positions, t, s);
            && (s.Lost? || !EnabledByModifier(v, s.modifier) ==> level == 0.0)
            && (s.Frame? && EnabledByModifier(v, s.modifier) ==>
                  && (after.pos == 0 ==> level == if v.range == Bipolar then -1.0 else 0.0)
                  && (after.pos == 1 && positions == 2 ==> level == 1.0)
                  && (after.pos == 1 && positions == 3 ==> level == if v.range == Bipolar then 0.0 else 0.5)
                  && (after.pos == 2 ==> level == 1.0))
  {
    hide Moved, EnabledByModifier;
  }

  /** An Activate modifier enables while pressed, a Desactivate one while released, and any other always. */
  lemma EnabledIff(v: VirtualInput, pressed: bool)
    ensures EnabledByModifier(v, pressed) <==>
            !(v.modifier != NO_INPUT && v.modifierFunction == Activate && !pressed)
            && !(v.modifier != NO_INPUT && v.modifierFunction == Desactivate && pressed)
  {}

  /** A tick samples the input's own buttons; one that is not configured counts as released. */
  lemma SamplesOwnButtons(v: VirtualInput, pad: Pad)
    ensures SampleOf(v, pad).Frame?
    ensures SampleOf(v, pad).primary <==> IsInputActive(v.primary, pad)
    ensures SampleOf(v, pad).secondary <==> v.secondary != NO_INPUT && IsInputActive(v.secondary, pad)
    ensures SampleOf(v, pad).modifier <==> v.modifier != NO_INPUT && IsInputActive(v.modifier, pad)
  {
    hide IsInputActive;
  }

  // ----- Runs of the firmware's own step -----

  /** What evaluateVirtualRuntime makes of one input over a run of ticks, each with or without a controller. */
  function RuntimeRun(powf: Power, v: VirtualInput, start: Toggle, ticks: seq<Option<Pad>>): Toggle {
    if ticks == [] then start
    else RuntimeStep(powf, v, RuntimeRun(powf, v, start, ticks[..|ticks| - 1]), ticks[|ticks| - 1]).0
  }

  /** The same ticks as the toggle's buttons show them. */
  function Samples(v: VirtualInput, ticks: seq<Option<Pad>>): (run: seq<Sample>)
    ensures |run| == |ticks|
    ensures forall i | 0 <= i < |ticks| ::
              run[i] == match ticks[i] case None => Lost case Some(pad) => SampleOf(v, pad)
  {
    seq(|ticks|, i requires 0 <= i < |ticks| => match ticks[i] case None => Lost case Some(pad) => SampleOf(v, pad))
  }

  lemma SamplesAreSampled(v: VirtualInput, ticks: seq<Option<Pad>>)
    ensures Sampled(v, Samples(v, ticks))
  {}

  /** A toggle input's run of firmware ticks is a toggle run over the samples. */
  lemma {:induction false} RuntimeIsToggleRun(powf: Power, v: VirtualInput, start: Toggle, ticks: seq<Option<Pad>>)
    requires v.inputType == Toggle2Pos || v.inputType == Toggle3Pos
    ensures RuntimeRun(powf, v, start, ticks) ==
              ToggleRun(v, if v.inputType == Toggle2Pos then 2 else 3, start, Samples(v, ticks))
    decreases |ticks|
  {
    if ticks != [] {
      var n := |ticks| - 1;
      RuntimeIsToggleRun(powf, v, start, ticks[..n]);
      assert Samples(v, ticks)[..n] == Samples(v, ticks[..n]);
      hide SampleOf, Forget, Moved;
    }
  }

  /** From the state apply sets, over any run of ticks, a two-position input stands at the parity of its counted presses. */
  lemma TwoPositionInputIsParity(powf: Power, v: VirtualInput, dir: int, ticks: seq<Option<Pad>>)
    requires v.inputType == Toggle2Pos
    ensures RuntimeRun(powf, v, StartOf(v, dir), ticks).pos == Presses(v, Samples(v, ticks)) % 2
  {
    RuntimeIsToggleRun(powf, v, StartOf(v, dir), ticks);
    TwoPositionsAreParity(v, Samples(v, ticks), dir);
  }

  /** Likewise a single-button three-position input stands on the triangle wave. */
  lemma ThreePositionInputIsWave(powf: Power, v: VirtualInput, dir: int, ticks: seq<Option<Pad>>)
    requires v.inputType == Toggle3Pos && v.secondary == NO_INPUT
    ensures var start := if v.range == Unipolar then 0 else 1;
            && RuntimeRun(powf, v, StartOf(v, dir), ticks).pos == Wave(Phase(v, start, Samples(v, ticks)))
            && (v.modifier == NO_INPUT || v.modifierFunction != Recenter ==>
                  Phase(v, start, Samples(v, ticks)) == start + Presses(v, Samples(v, ticks)))
  {
    RuntimeIsToggleRun(powf, v, StartOf(v, dir), ticks);
    SamplesAreSampled(v, ticks);
    ThreePositionsAreWave(v, Samples(v, ticks), dir);
    if v.modifier == NO_INPUT || v.modifierFunction != Recenter {
      PhaseWithoutRecenter(v, if v.range == Unipolar then 0 else 1, Samples(v, ticks));
    }
  }

  /** And one with two buttons stands where its last lone press or recentering put it. */
  lemma TwoButtonInputFollows(powf: Power, v: VirtualInput, dir: int, ticks: seq<Option<Pad>>)
    requires v.inputType == Toggle3Pos && v.secondary != NO_INPUT
    ensures RuntimeRun(powf, v, StartOf(v, dir), ticks).pos ==
              LastCommand(v, if v.range == Unipolar then 0 else 1, Samples(v, ticks))
  {
    RuntimeIsToggleRun(powf, v, StartOf(v, dir), ticks);
    SamplesAreSampled(v, ticks);
    TwoButtonsCommand(v, Samples(v, ticks), dir);
  }

  /** A direct input contributes its evaluated level, and nothing without a controller; its position is left alone. */
  lemma DirectInputContributes(powf: Power, v: VirtualInput, t: Toggle, pad: Pad)
    requires v.inputType == Direct
    ensures RuntimeStep(powf, v, t, Some(pad)).1 == EvaluateDirect(powf, v, pad)
    ensures RuntimeStep(powf, v, t, Some(pad)).0 == Toggle(t.pos, 1, false, false, false, IsInputActive(v.primary, pad))
    ensures RuntimeStep(powf, v, t, None) == (Toggle(t.pos, t.dir, false, false, false, false), 0.0)
  {
    hide EvaluateDirect, IsInputActive;
  }

  /** A press that begins while the input is disabled is spent: holding it until the input is enabled moves nothing. */
  lemma DisabledPressIsConsumed(v: VirtualInput, positions: int, t: Toggle, off: Sample, on: Sample)
    requires off.Frame? && on.Frame? && off.primary && on.primary
    requires !EnabledByModifier(v, off.modifier) && EnabledByModifier(v, on.modifier)
    requires v.secondary == NO_INPUT
    ensures ToggleStep(v, positions, ToggleStep(v, positions, t, off).0, on).0.pos == t.pos
  {}
}
