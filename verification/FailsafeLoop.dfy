/**
 The control loop of main/runtime_loop.cpp with the connection callbacks of
 main/sketch.cpp that share its state: when the outputs are in their safe position.

 The clock the firmware sees is millis(), a 32-bit counter; runs here carry the real
 time, so the contracts say what happens when the counter wraps.
 */
module FailsafeLoop {
  import opened Wrappers
  import opened Clock
  import opened RcTypes
  import opened ControlInputs
  import opened RcConfig
  import opened OutputPins
  import opened SignalPath
  import opened Toggles
  import opened RcModels

  const SIGNAL_TIMEOUT_MS := 450

  /** `linked`: a connected controller is bound. `safe`: every used output holds its failsafe. */
  datatype Loop = Loop(linked: bool, last: nat, timedOut: bool, safe: bool)

  datatype Event = Tick(time: nat, hasData: bool) | Connect(time: nat) | Disconnect(time: nat)

  /** The web status reports failsafe. */
  predicate ReportsFailsafe(s: Loop) {
    s.timedOut || !s.linked
  }

  function AfterConnect(s: Loop, time: nat): Loop {
    Loop(true, Millis(time), false, s.safe)
  }

  function AfterDisconnect(s: Loop): Loop {
    s.(linked := false, timedOut := false, safe := true)
  }

  /** One event of the firmware. Fresh data may move the outputs anywhere. */
  predicate Next(s: Loop, e: Event, s': Loop) {
    match e
    case Connect(time) =>
      !s.linked && s' == AfterConnect(s, time)
    case Disconnect(_) =>
      s.linked && s' == AfterDisconnect(s)
    case Tick(time, hasData) =>
      if !s.linked then s' == s.(safe := true)
      else if hasData then s' == Loop(true, Millis(time), false, s'.safe)
      else if Elapsed(Millis(time), s.last) > SIGNAL_TIMEOUT_MS then s' == s.(timedOut := true, safe := true)
      else s' == s
  }

  /** What the same event makes of the outputs; `packet` is the report that comes with a tick, if any. */
  predicate NextShown(c: Setting, s: Loop, d: Shown, e: Event, packet: Option<Pad>, d': Shown) {
    match e
    case Connect(_) => d' == d
    case Disconnect(_) => SafeShown(c, d, d')
    case Tick(time, _) =>
      if !s.linked then SafeShown(c, Rested(d), d')
      else match packet
        case Some(pad) => PacketShown(c, d, pad, d')
        case None => if Elapsed(Millis(time), s.last) > SIGNAL_TIMEOUT_MS then SafeShown(c, d, d') else d' == d
  }

  /** Levels at rest and buttons forgotten, as without a controller. */
  function Rested(d: Shown): (r: Shown)
    ensures RestShown(d, r)
  {
    d.(levels := seq(MAX_VIRTUAL_INPUTS, i => 0.0),
       toggles := seq(MAX_VIRTUAL_INPUTS, i requires 0 <= i < MAX_VIRTUAL_INPUTS =>
         Toggle(d.toggles[i].pos, d.toggles[i].dir, false, false, false, false)))
  }

  lemma RestIsUnique(d: Shown, r: Shown)
    requires RestShown(d, r)
    ensures r == Rested(d)
  {
    assert r.levels == Rested(d).levels && r.toggles == Rested(d).toggles;
  }

  class ControlLoop {
    const model: RcModel
    var linked: bool
    var lastPacketMs: nat
    var signalTimedOut: bool

    /** The loop as the run lemmas see it. */
    ghost function State(): Loop
      reads this, model
    {
      Loop(linked, lastPacketMs, signalTimedOut, model.AllAtFailsafe())
    }

    /** setup() ends with every output in its safe position and no controller bound. */
    constructor (model: RcModel)
      requires model.AllAtFailsafe()
      ensures this.model == model && State() == Loop(false, 0, false, true)
    {
      this.model := model;
      linked := false;
      lastPacketMs := 0;
      signalTimedOut := false;
    }

    /** processControlTick; `packet` is the report hasData() announces, if any. */
    method ProcessControlTick(ghost time: nat, nowMs: nat, packet: Option<Pad>)
      requires nowMs == Millis(time) && model.InSync()
      modifies this, model
      ensures model.InSync() && model.Configured() == old(model.Configured())
      ensures Next(old(State()), Tick(time, packet.Some?), State())
      ensures NextShown(model.Configured(), old(State()), old(model.Display()), Tick(time, packet.Some?), packet, model.Display())
    {
      hide PacketShown, SafeShown;
      if linked {
        match packet {
          case Some(pad) =>
            lastPacketMs := nowMs;
            signalTimedOut := false;
            model.ProcessGamepadToOutputs(pad);
          case None =>
            if Elapsed(nowMs, lastPacketMs) > SIGNAL_TIMEOUT_MS {
              model.ApplyFailsafeAllOutputs();
              signalTimedOut := true;
            }
        }
        return;
      }
      model.EvaluateVirtualRuntime(None);
      RestIsUnique(old(model.Display()), model.Display());
      model.ApplyFailsafeAllOutputs();
    }

    /** onConnectedController: only a gamepad is bound, and only when none is. */
    method OnConnectedController(ghost time: nat, nowMs: nat, isPad: bool)
      requires nowMs == Millis(time)
      modifies this
      ensures isPad && !old(linked) ==> Next(old(State()), Connect(time), State())
      ensures !isPad || old(linked) ==> State() == old(State())
    {
      if !isPad {
        return;
      }
      if linked {
        return;
      }
      linked := true;
      lastPacketMs := nowMs;
      signalTimedOut := false;
    }

    /** onDisconnectedController: only the bound gamepad matters. */
    method OnDisconnectedController(ghost time: nat, isBound: bool)
      requires model.InSync() && (isBound ==> linked)
      modifies this, model
      ensures model.InSync() && model.Configured() == old(model.Configured())
      ensures isBound ==>
                && Next(old(State()), Disconnect(time), State())
                && NextShown(model.Configured(), old(State()), old(model.Display()), Disconnect(time), None, model.Display())
      ensures !isBound ==> State() == old(State()) && model.Display() == old(model.Display())
    {
      if isBound {
        linked := false;
        signalTimedOut := false;
        model.ApplyFailsafeAllOutputs();
      }
    }
  }

  // ----- Runs -----

  /** `states[i]` is the loop before event `i`; the run starts after setup(). */
  predicate IsRun(states: seq<Loop>, events: seq<Event>) {
    && |states| == |events| + 1
    && states[0] == Loop(false, 0, false, true)
    && forall i | 0 <= i < |events| :: Next(states[i], events[i], states[i + 1])
  }

  predicate IsContact(s: Loop, e: Event) {
    e.Connect? || (e.Tick? && e.hasData && s.linked)
  }

  /** The real time of the last packet or connection before event `i`. */
  function LastContact(states: seq<Loop>, events: seq<Event>, i: nat): nat
    requires i <= |events| < |states|
  {
    if i == 0 then 0
    else if IsContact(states[i - 1], events[i - 1]) then events[i - 1].time
    else LastContact(states, events, i - 1)
  }

  /** Time never runs backwards, and consecutive events are less than `gap` milliseconds apart. */
  predicate Paced(events: seq<Event>, gap: nat) {
    forall i | 0 < i < |events| :: events[i - 1].time <= events[i].time < events[i - 1].time + gap
  }

  const MAX_GAP := CLOCK_WRAP - SIGNAL_TIMEOUT_MS

  // ----- When silence is noticed, whatever the pacing -----

  /** While a controller is bound, the timer holds the reading at its last packet or connection. */
  lemma {:induction false} TimerHoldsContact(states: seq<Loop>, events: seq<Event>, i: nat)
    requires IsRun(states, events) && i <= |events|
    ensures states[i].linked ==> states[i].last == Millis(LastContact(states, events, i))
    decreases i
  {
    if i > 0 {
      TimerHoldsContact(states, events, i - 1);
      assert Next(states[i - 1], events[i - 1], states[i]);
      hide Millis;
    }
  }

  /** The silence before event `i` as the counter shows it: whole counter periods are lost. */
  function SeenSilence(states: seq<Loop>, events: seq<Event>, i: nat): nat
    requires i < |events| < |states|
  {
    (events[i].time - LastContact(states, events, i)) % CLOCK_WRAP
  }

  lemma ElapsedIsResidue(time: nat, contact: nat)
    ensures Elapsed(Millis(time), Millis(contact)) == (time - contact) % CLOCK_WRAP
  {
    var a, b := time / CLOCK_WRAP, contact / CLOCK_WRAP;
    assert time == a * CLOCK_WRAP + Millis(time) && contact == b * CLOCK_WRAP + Millis(contact);
    assert time - contact == (Millis(time) - Millis(contact)) + (a - b) * CLOCK_WRAP;
    ModuloMultiple(Millis(time) - Millis(contact), a - b);
  }

  /** A tick without data leaves safe outputs safe, and makes others safe exactly when the silence it sees exceeds the timeout. */
  lemma TickIsSafeIff(states: seq<Loop>, events: seq<Event>, i: nat)
    requires IsRun(states, events) && i < |events|
    requires events[i].Tick? && !events[i].hasData && states[i].linked
    ensures states[i + 1].safe <==> states[i].safe || SeenSilence(states, events, i) > 450
  {
    TimerHoldsContact(states, events, i);
    ElapsedIsResidue(events[i].time, LastContact(states, events, i));
    assert Next(states[i], events[i], states[i + 1]);
    hide Millis, Elapsed;
  }

  /** How many events there were up to and including the last contact before event `i`. */
  function ContactEnd(states: seq<Loop>, events: seq<Event>, i: nat): (c: nat)
    requires i <= |events| < |states|
    ensures c <= i
  {
    if i == 0 then 0
    else if IsContact(states[i - 1], events[i - 1]) then i
    else ContactEnd(states, events, i - 1)
  }

  /** Event `i` puts the outputs in their safe position: the controller is or goes missing, or the tick sees enough silence. */
  predicate Notices(states: seq<Loop>, events: seq<Event>, i: nat)
    requires i < |events| < |states|
  {
    match events[i]
    case Connect(_) => false
    case Disconnect(_) => true
    case Tick(_, hasData) => !states[i].linked || (!hasData && SeenSilence(states, events, i) > SIGNAL_TIMEOUT_MS)
  }

  /** Some event since the last contact before event `i` noticed. */
  ghost predicate NoticedSince(states: seq<Loop>, events: seq<Event>, i: nat)
    requires i <= |events| < |states|
  {
    exists k | ContactEnd(states, events, i) <= k < i :: Notices(states, events, k)
  }

  lemma NoticedStep(states: seq<Loop>, events: seq<Event>, i: nat)
    requires i < |events| < |states|
    ensures NoticedSince(states, events, i + 1) <==>
            !IsContact(states[i], events[i]) && (NoticedSince(states, events, i) || Notices(states, events, i))
  {
    hide Notices, IsContact;
    if !IsContact(states[i], events[i]) && NoticedSince(states, events, i) {
      var k :| ContactEnd(states, events, i) <= k < i && Notices(states, events, k);
      assert ContactEnd(states, events, i + 1) <= k < i + 1;
    }
  }

  lemma SafeStep(states: seq<Loop>, events: seq<Event>, i: nat)
    requires IsRun(states, events) && i < |events|
    ensures !IsContact(states[i], events[i]) ==> (states[i + 1].safe <==> states[i].safe || Notices(states, events, i))
  {
    assert Next(states[i], events[i], states[i + 1]);
    if events[i].Tick? && !events[i].hasData && states[i].linked {
      TickIsSafeIff(states, events, i);
    }
    hide Millis, Elapsed, SeenSilence;
  }

  /**
   In every run, however it is paced, the outputs are in their safe position exactly when
   the last contact left them there or some event since noticed the controller missing or
   silent; a silence is missed exactly when every tick in it falls within the timeout after
   a whole number of counter periods.
   */
  lemma {:induction false} SafeIff(states: seq<Loop>, events: seq<Event>, i: nat)
    requires IsRun(states, events) && i <= |events|
    ensures states[i].safe <==> states[ContactEnd(states, events, i)].safe || NoticedSince(states, events, i)
    decreases i
  {
    if i > 0 {
      SafeIff(states, events, i - 1);
      SafeStep(states, events, i - 1);
      NoticedStep(states, events, i - 1);
      hide IsRun, Notices, NoticedSince, IsContact;
    }
  }

  /**
   In every run the status reports failsafe exactly when no controller is bound, or some tick
   since the last contact saw more than the timeout of silence.
   */
  lemma {:induction false} StatusIff(states: seq<Loop>, events: seq<Event>, i: nat)
    requires IsRun(states, events) && i <= |events|
    ensures ReportsFailsafe(states[i]) <==> !states[i].linked || NoticedSince(states, events, i)
    decreases i
  {
    if i > 0 {
      StatusIff(states, events, i - 1);
      NoticedStep(states, events, i - 1);
      TimerHoldsContact(states, events, i - 1);
      ElapsedIsResidue(events[i - 1].time, LastContact(states, events, i - 1));
      assert Next(states[i - 1], events[i - 1], states[i]);
      hide Millis, Elapsed, NoticedSince, IsRun;
      if i > 1 {
        hide LastContact;
      }
    }
  }

  // ----- Paced runs -----

  lemma {:induction false} PacedTimes(states: seq<Loop>, events: seq<Event>, i: nat)
    requires IsRun(states, events) && Paced(events, MAX_GAP) && i < |events| && states[i].linked
    ensures i > 0 && LastContact(states, events, i) <= events[i - 1].time <= events[i].time < events[i - 1].time + MAX_GAP
    decreases i
  {
    assert i > 0 ==> Next(states[i - 1], events[i - 1], states[i]);
    if i > 0 && !IsContact(states[i - 1], events[i - 1]) {
      PacedTimes(states, events, i - 1);
    }
    hide Millis, Elapsed;
  }

  /** In a paced run a bound controller's silence has been short at every event while the outputs are not safe. */
  lemma {:induction false} UnsafeMeansRecent(states: seq<Loop>, events: seq<Event>, i: nat)
    requires IsRun(states, events) && Paced(events, MAX_GAP) && i < |events|
    requires states[i].linked && !states[i].safe
    ensures i > 0 && events[i - 1].time - LastContact(states, events, i) <= SIGNAL_TIMEOUT_MS
    decreases i
  {
    PacedTimes(states, events, i);
    if !IsContact(states[i - 1], events[i - 1]) {
      SafeStep(states, events, i - 1);
      assert Next(states[i - 1], events[i - 1], states[i]);
      UnsafeMeansRecent(states, events, i - 1);
      PacedTimes(states, events, i - 1);
    }
    hide Millis, Elapsed;
  }

  /**
   In every paced run, a tick that finds no data after more than the timeout of real
   silence, or no controller at all, leaves every used output in its safe position.
   */
  lemma SilenceMeansSafe(states: seq<Loop>, events: seq<Event>, i: nat)
    requires IsRun(states, events) && Paced(events, MAX_GAP) && i < |events|
    requires events[i].Tick?
    requires !states[i].linked || (!events[i].hasData && events[i].time - LastContact(states, events, i) > 450)
    ensures states[i + 1].safe
  {
    SafeStep(states, events, i);
    if states[i].linked && !states[i].safe {
      UnsafeMeansRecent(states, events, i);
      PacedTimes(states, events, i);
      assert SeenSilence(states, events, i) == events[i].time - LastContact(states, events, i);
    }
  }

  /** Whenever the status page reports failsafe the outputs really are safe; this needs no pacing. */
  lemma {:induction false} ReportIsTruthful(states: seq<Loop>, events: seq<Event>, i: nat)
    requires IsRun(states, events) && i <= |events|
    ensures ReportsFailsafe(states[i]) ==> states[i].safe
    decreases i
  {
    if i > 0 {
      ReportIsTruthful(states, events, i - 1);
      assert Next(states[i - 1], events[i - 1], states[i]);
    }
  }

  /** Once safe, the outputs stay safe until the next packet, however often the counter wraps. */
  lemma {:induction false} SafeUntilNextPacket(states: seq<Loop>, events: seq<Event>, i: nat, j: nat)
    requires IsRun(states, events) && i <= j <= |events|
    requires states[i].safe
    requires forall k | i <= k < j :: !(events[k].Tick? && events[k].hasData && states[k].linked)
    ensures states[j].safe
    decreases j
  {
    if i < j {
      SafeUntilNextPacket(states, events, i, j - 1);
      assert Next(states[j - 1], events[j - 1], states[j]);
    }
  }

  // ----- What the outputs show over a run -----

  /** A run of the loop together with its outputs under one configuration. */
  predicate ShowsRun(c: Setting, states: seq<Loop>, events: seq<Event>, packets: seq<Option<Pad>>, shown: seq<Shown>) {
    && IsRun(states, events) && |packets| == |events| && |shown| == |events| + 1
    && forall i | 0 <= i < |events| ::
         && (events[i].Tick? ==> events[i].hasData == packets[i].Some?)
         && NextShown(c, states[i], shown[i], events[i], packets[i], shown[i + 1])
  }

  /** Event `k` brings a packet the loop acts on. */
  predicate IsPacket(states: seq<Loop>, events: seq<Event>, k: nat)
    requires k < |events| < |states|
  {
    events[k].Tick? && events[k].hasData && states[k].linked
  }

  /** Neither a packet nor a failsafe at event `k` leaves every output as it is. */
  lemma QuietEventShowsNothing(c: Setting, states: seq<Loop>, events: seq<Event>, packets: seq<Option<Pad>>, shown: seq<Shown>, k: nat)
    requires ShowsRun(c, states, events, packets, shown) && k < |events|
    requires !IsPacket(states, events, k) && !Notices(states, events, k)
    ensures shown[k + 1] == shown[k]
  {
    TimerHoldsContact(states, events, k);
    if events[k].Tick? {
      ElapsedIsResidue(events[k].time, LastContact(states, events, k));
    }
    hide Millis, Elapsed, PacketShown, SafeShown, IsRun;
  }

  lemma {:induction false} QuietStretch(
    c: Setting, states: seq<Loop>, events: seq<Event>, packets: seq<Option<Pad>>, shown: seq<Shown>, i: nat, j: nat)
    requires ShowsRun(c, states, events, packets, shown) && i <= j <= |events|
    requires forall k | i <= k < j :: !IsPacket(states, events, k) && !Notices(states, events, k)
    ensures shown[j] == shown[i]
    decreases j
  {
    hide ShowsRun, IsPacket, Notices;
    if i < j {
      QuietStretch(c, states, events, packets, shown, i, j - 1);
      QuietEventShowsNothing(c, states, events, packets, shown, j - 1);
    }
  }

  /**
   From a packet on, until the next packet, failsafe or disconnect, each attached servo
   holds the pulse that packet's levels give, and, on distinct pins, each switch its level.
   */
  lemma PacketIsHeld(
    c: Setting, states: seq<Loop>, events: seq<Event>, packets: seq<Option<Pad>>, shown: seq<Shown>, i: nat, j: nat)
    requires ShowsRun(c, states, events, packets, shown) && i < j <= |events| && IsPacket(states, events, i)
    requires forall k | i < k < j :: !IsPacket(states, events, k) && !Notices(states, events, k)
    ensures packets[i].Some? && PacketShown(c, shown[i], packets[i].value, shown[j])
    ensures forall o | 0 <= o < MAX_OUTPUT_CHANNELS && IsPwmOutput(c.outs[o]) && shown[i].servos[o].Attached? ::
              shown[j].servos[o] == Attached(shown[i].servos[o].pin, Pulse(c.outs[o], shown[j].levels))
  {
    assert NextShown(c, states[i], shown[i], events[i], packets[i], shown[i + 1]);
    QuietStretch(c, states, events, packets, shown, i + 1, j);
    hide Pulse, IsRun, Notices;
  }

  /** Every used output is in its safe position: the servo on its failsafe pulse, the switch off. */
  predicate AllSafe(c: Setting, d: Shown) {
    forall o | 0 <= o < MAX_OUTPUT_CHANNELS ::
      && (IsPwmOutput(c.outs[o]) && d.servos[o].Attached? ==> d.servos[o].us == FailsafeUs(c.outs[o].failsafe))
      && (IsSwitchOutput(c.outs[o]) ==> c.outs[o].pin in d.pins && !d.pins[c.outs[o].pin])
  }

  lemma SafeIsAllSafe(c: Setting, before: Shown, after: Shown)
    requires SafeShown(c, before, after)
    ensures AllSafe(c, after)
  {
    hide FailsafeUs;
  }

  lemma NoticedIsSafe(c: Setting, states: seq<Loop>, events: seq<Event>, packets: seq<Option<Pad>>, shown: seq<Shown>, k: nat)
    requires ShowsRun(c, states, events, packets, shown) && k < |events| && Notices(states, events, k)
    ensures AllSafe(c, shown[k + 1])
  {
    TimerHoldsContact(states, events, k);
    if events[k].Tick? {
      ElapsedIsResidue(events[k].time, LastContact(states, events, k));
    }
    hide Millis, Elapsed, PacketShown, SafeShown, AllSafe, IsRun, RestShown;
    assert NextShown(c, states[k], shown[k], events[k], packets[k], shown[k + 1]);
    var d := if events[k].Tick? && !states[k].linked then Rested(shown[k]) else shown[k];
    SafeIsAllSafe(c, d, shown[k + 1]);
  }

  /** From a failsafe or disconnect on, until the next packet, every used output holds its safe position. */
  lemma {:induction false} FailsafeIsHeld(
    c: Setting, states: seq<Loop>, events: seq<Event>, packets: seq<Option<Pad>>, shown: seq<Shown>, i: nat, j: nat)
    requires ShowsRun(c, states, events, packets, shown) && i < j <= |events| && Notices(states, events, i)
    requires forall k | i < k < j :: !IsPacket(states, events, k)
    ensures AllSafe(c, shown[j])
    decreases j
  {
    assert |states| == |events| + 1;
    hide ShowsRun, IsPacket, Notices, AllSafe;
    if Notices(states, events, j - 1) {
      NoticedIsSafe(c, states, events, packets, shown, j - 1);
    } else {
      FailsafeIsHeld(c, states, events, packets, shown, i, j - 1);
      QuietEventShowsNothing(c, states, events, packets, shown, j - 1);
    }
  }

  /** The pacing bound is sharp: one gap of exactly MAX_GAP hides a silence of a whole counter period. */
  lemma GapBoundIsSharp()
    ensures exists states: seq<Loop>, events: seq<Event>, i: nat ::
              && IsRun(states, events) && Paced(events, MAX_GAP + 1) && i < |events|
              && events[i] == Tick(CLOCK_WRAP, false)
              && LastContact(states, events, i) == 0
              && !states[i + 1].safe
  {
    var idle, moving := Loop(true, 0, false, true), Loop(true, 0, false, false);
    var states := [Loop(false, 0, false, true), idle, moving, moving, moving];
    var events := [Connect(0), Tick(0, true), Tick(SIGNAL_TIMEOUT_MS, false), Tick(CLOCK_WRAP, false)];
    assert Next(states[0], events[0], states[1]);
    assert Next(states[1], events[1], states[2]);
    assert Next(states[2], events[2], states[3]);
    assert Next(states[3], events[3], states[4]);
    assert LastContact(states, events, 2) == 0;
    assert LastContact(states, events, 3) == 0;
    assert IsRun(states, events);
  }
}
