/**
 The Bluetooth scan scheduler of main/sketch.cpp: when scanning is started and stopped,
 how long its pulses last, and how much of the time the radio spends scanning.

 Runs carry real times. The firmware reads them through a 32-bit counter; the same steps
 on an unbounded counter are what its deadlines mean, and the two are compared exactly.
 */
module ScanScheduler {
  import opened Clock

  const PAIRING_WINDOW_MS := 120000
  const AUTO_ON_MS := 1500
  const AUTO_OFF_MS := 12000
  const PAIRING_ON_MS := 3500
  const PAIRING_OFF_MS := 900

  /** millis() as it is, or as it would be if it never wrapped. */
  datatype Counter = Wrapping | Unbounded

  function Reading(c: Counter, time: nat): nat {
    if c == Wrapping then Millis(time) else time
  }

  function Later(c: Counter, now: nat, delay: nat): nat {
    if c == Wrapping then Add32(now, delay) else now + delay
  }

  /** The scheduler's globals, and the start (true) and stop (false) commands given to the radio. */
  datatype Sched = Sched(pairing: bool, pairingUntil: nat, active: bool, toggleAt: nat, commands: seq<bool>)

  datatype Event =
    | Tick(time: nat, connected: bool)
    | PairingOn(time: nat)
    | PairingOff(time: nat)
    | GamepadBound(time: nat)
    | GamepadLost(time: nat)

  /** setBtScanActive */
  function SetActive(s: Sched, enabled: bool): Sched {
    if s.active == enabled then s else s.(active := enabled, commands := s.commands + [enabled])
  }

  function ExpirePairing(s: Sched, now: nat): Sched {
    if s.pairing && now > s.pairingUntil then s.(pairing := false, toggleAt := 0) else s
  }

  function OnMs(s: Sched): nat {
    if s.pairing then PAIRING_ON_MS else AUTO_ON_MS
  }

  function OffMs(s: Sched): nat {
    if s.pairing then PAIRING_OFF_MS else AUTO_OFF_MS
  }

  /** updateBtScanScheduler at a reading of the counter. */
  function TickStep(c: Counter, s0: Sched, now: nat, connected: bool): Sched {
    var s := ExpirePairing(s0, now);
    if connected then SetActive(s, false).(toggleAt := Later(c, now, 2000))
    else if s.toggleAt != 0 && now < s.toggleAt then s
    else if s.active then SetActive(s, false).(toggleAt := Later(c, now, OffMs(s)))
    else SetActive(s, true).(toggleAt := Later(c, now, OnMs(s)))
  }

  function Step(c: Counter, s: Sched, e: Event): Sched {
    match e
    case Tick(time, connected) => TickStep(c, s, Reading(c, time), connected)
    case PairingOn(time) =>
      s.(pairing := true, pairingUntil := Later(c, Reading(c, time), PAIRING_WINDOW_MS), toggleAt := 0)
    case PairingOff(_) => s.(pairing := false, pairingUntil := 0, toggleAt := 0)
    case GamepadBound(_) =>
      var unpaired := if s.pairing then s.(pairing := false, pairingUntil := 0) else s;
      SetActive(unpaired.(toggleAt := 0), false)
    case GamepadLost(_) => s.(toggleAt := 0)
  }

  class Scheduler {
    var pairing: bool
    var pairingUntil: nat
    var active: bool
    var toggleAt: nat
    var commands: seq<bool>

    ghost function State(): Sched
      reads this
    {
      Sched(pairing, pairingUntil, active, toggleAt, commands)
    }

    /** The state setup() leaves, five seconds before the first pulse. */
    constructor (now: nat)
      ensures State() == Sched(false, 0, false, Add32(now, 5000), [])
    {
      pairing, pairingUntil, active := false, 0, false;
      toggleAt := Add32(now, 5000);
      commands := [];
    }

    method SetBtScanActive(enabled: bool)
      modifies this`active, this`commands
      ensures State() == SetActive(old(State()), enabled)
    {
      if active == enabled {
        return;
      }
      commands := commands + [enabled];
      active := enabled;
    }

    method UpdateBtScanScheduler(now: nat, connected: bool)
      modifies this
      ensures State() == TickStep(Wrapping, old(State()), now, connected)
    {
      if pairing && now > pairingUntil {
        pairing := false;
        toggleAt := 0;
      }
      if connected {
        SetBtScanActive(false);
        toggleAt := Add32(now, 2000);
        return;
      }
      if toggleAt != 0 && now < toggleAt {
        return;
      }
      var onMs := if pairing then PAIRING_ON_MS else AUTO_ON_MS;
      var offMs := if pairing then PAIRING_OFF_MS else AUTO_OFF_MS;
      if active {
        SetBtScanActive(false);
        toggleAt := Add32(now, offMs);
      } else {
        SetBtScanActive(true);
        toggleAt := Add32(now, onMs);
      }
    }

    method HandleApiPairingOn(ghost time: nat, now: nat)
      requires now == Millis(time)
      modifies this
      ensures State() == Step(Wrapping, old(State()), PairingOn(time))
    {
      pairing := true;
      pairingUntil := Add32(now, PAIRING_WINDOW_MS);
      toggleAt := 0;
    }

    method HandleApiPairingOff(ghost time: nat, now: nat)
      requires now == Millis(time)
      modifies this
      ensures State() == Step(Wrapping, old(State()), PairingOff(time))
    {
      pairing := false;
      pairingUntil := 0;
      toggleAt := 0;
    }

    /** The scheduler's part of onConnectedController, when a gamepad is bound. */
    method OnGamepadBound(ghost time: nat, now: nat)
      requires now == Millis(time)
      modifies this
      ensures State() == Step(Wrapping, old(State()), GamepadBound(time))
    {
      if pairing {
        pairing := false;
        pairingUntil := 0;
      }
      toggleAt := 0;
      SetBtScanActive(false);
    }

    /** The scheduler's part of onDisconnectedController, for the bound gamepad. */
    method OnGamepadLost(ghost time: nat, now: nat)
      requires now == Millis(time)
      modifies this
      ensures State() == Step(Wrapping, old(State()), GamepadLost(time))
    {
      toggleAt := 0;
    }
  }

  // ----- Every run -----

  predicate Follows(c: Counter, states: seq<Sched>, events: seq<Event>) {
    && |states| == |events| + 1
    && forall i | 0 <= i < |events| :: states[i + 1] == Step(c, states[i], events[i])
  }

  /** `states[i]` is the scheduler before event `i`; `boot` is the time of setup(). */
  predicate IsRun(c: Counter, states: seq<Sched>, events: seq<Event>, boot: nat) {
    && Follows(c, states, events)
    && states[0] == Sched(false, 0, false, Later(c, Reading(c, boot), 5000), [])
  }

  /** Time does not run backwards. */
  predicate Timed(events: seq<Event>, boot: nat) {
    forall i | 0 <= i < |events| :: boot <= events[i].time && (i > 0 ==> events[i - 1].time <= events[i].time)
  }

  /** The radio is told to start, stop, start, stop, ..., and `active` says which came last. */
  predicate Alternates(s: Sched) {
    && (forall i | 0 <= i < |s.commands| :: s.commands[i] == (i % 2 == 0))
    && (s.active <==> |s.commands| % 2 == 1)
  }

  lemma {:induction false} CommandsAlternate(c: Counter, states: seq<Sched>, events: seq<Event>, boot: nat, i: nat)
    requires IsRun(c, states, events, boot) && i <= |events|
    ensures Alternates(states[i])
    decreases i
  {
    if i > 0 {
      CommandsAlternate(c, states, events, boot, i - 1);
      StepAlternates(c, states[i - 1], events[i - 1]);
    }
  }

  lemma StepAlternates(c: Counter, s: Sched, e: Event)
    requires Alternates(s)
    ensures Alternates(Step(c, s, e))
  {
    SetAlternates(s, true);
    SetAlternates(s, false);
    hide Later;
  }

  lemma SetAlternates(s: Sched, enabled: bool)
    requires Alternates(s)
    ensures Alternates(SetActive(s, enabled))
  {}

  // ----- What wrapping changes -----

  /** The state an unbounded counter would give, as the firmware's counter shows it. */
  function Wrapped(s: Sched): Sched {
    s.(pairingUntil := Millis(s.pairingUntil), toggleAt := Millis(s.toggleAt))
  }

  /** The deadline lies ahead, but beyond the next wrap of the counter, so it reads as past. */
  predicate TooEarly(time: nat, deadline: nat) {
    time < deadline && time / CLOCK_WRAP < deadline / CLOCK_WRAP
  }

  /** The counter wrapped since the deadline, and its reading is still below the deadline's. */
  predicate TooLate(time: nat, deadline: nat) {
    time / CLOCK_WRAP > deadline / CLOCK_WRAP && Millis(time) < Millis(deadline)
  }

  /** The same for the pairing window, which is over only after its last millisecond. */
  predicate StillOpen(time: nat, until: nat) {
    time / CLOCK_WRAP > until / CLOCK_WRAP && Millis(time) <= Millis(until)
  }

  /** The tick takes an open deadline for past, or a past one for open. */
  predicate Misjudged(s: Sched, e: Event) {
    && e.Tick?
    && var toggleAt := ExpirePairing(s, e.time).toggleAt;
       || (s.pairing && (TooEarly(e.time, s.pairingUntil) || StillOpen(e.time, s.pairingUntil)))
       || (!e.connected && toggleAt != 0 && (TooEarly(e.time, toggleAt) || TooLate(e.time, toggleAt)))
  }

  /** No deadline is a whole counter period ahead. */
  predicate NearDeadlines(s: Sched, time: nat) {
    s.toggleAt < time + CLOCK_WRAP && s.pairingUntil < time + CLOCK_WRAP
  }

  /** How a deadline less than a period ahead reads. */
  lemma DeadlineReads(time: nat, deadline: nat)
    requires deadline < time + CLOCK_WRAP
    ensures (time < deadline) != (Millis(time) < Millis(deadline)) <==> TooEarly(time, deadline) || TooLate(time, deadline)
    ensures (time > deadline) != (Millis(time) > Millis(deadline)) <==> TooEarly(time, deadline) || StillOpen(time, deadline)
    ensures Millis(deadline) == 0 ==> !TooLate(time, deadline) && (time < deadline ==> TooEarly(time, deadline))
  {
    var a, b := time / CLOCK_WRAP, deadline / CLOCK_WRAP;
    assert time == a * CLOCK_WRAP + Millis(time) && deadline == b * CLOCK_WRAP + Millis(deadline);
    assert 0 <= Millis(time) < CLOCK_WRAP && 0 <= Millis(deadline) < CLOCK_WRAP;
    hide Millis;
    if a < b {
      assert b <= a + 1;
    }
  }

  lemma LaterWraps(time: nat, delay: nat)
    ensures Add32(Millis(time), delay) == Millis(time + delay)
  {
    var a := time / CLOCK_WRAP;
    assert time + delay == (Millis(time) + delay) + a * CLOCK_WRAP;
    ModuloMultiple(Millis(time) + delay, a);
  }

  /** One tick is judged as on an unbounded counter if and only if it misjudges no deadline. */
  lemma TickAgreesIff(s: Sched, time: nat, connected: bool)
    requires NearDeadlines(s, time)
    ensures TickStep(Wrapping, Wrapped(s), Millis(time), connected) == Wrapped(TickStep(Unbounded, s, time, connected)) <==>
            !Misjudged(s, Tick(time, connected))
  {
    DeadlineReads(time, s.pairingUntil);
    DeadlineReads(time, s.toggleAt);
    LaterWraps(time, 2000);
    LaterWraps(time, AUTO_ON_MS);
    LaterWraps(time, AUTO_OFF_MS);
    LaterWraps(time, PAIRING_ON_MS);
    LaterWraps(time, PAIRING_OFF_MS);
    assert Millis(0) == 0;
    hide Millis, Add32, TooEarly, TooLate, StillOpen;
  }

  lemma StepAgreesIff(s: Sched, e: Event)
    requires NearDeadlines(s, e.time)
    ensures Step(Wrapping, Wrapped(s), e) == Wrapped(Step(Unbounded, s, e)) <==> !Misjudged(s, e)
  {
    if e.Tick? {
      TickAgreesIff(s, e.time, e.connected);
    } else {
      LaterWraps(e.time, PAIRING_WINDOW_MS);
      assert Millis(0) == 0;
    }
    hide Millis, Add32, TickStep;
  }

  lemma StepKeepsNear(s: Sched, e: Event, time: nat)
    requires NearDeadlines(s, e.time) && e.time <= time
    ensures NearDeadlines(Step(Unbounded, s, e), time)
  {}

  lemma {:induction false} StaysNear(ideal: seq<Sched>, events: seq<Event>, boot: nat, i: nat)
    requires Follows(Unbounded, ideal, events) && Timed(events, boot) && i < |events|
    requires NearDeadlines(ideal[0], boot)
    ensures NearDeadlines(ideal[i], events[i].time)
    decreases i
  {
    if i > 0 {
      StaysNear(ideal, events, boot, i - 1);
      StepKeepsNear(ideal[i - 1], events[i - 1], events[i].time);
      hide Step, NearDeadlines;
    } else {
      hide Step;
    }
  }

  /** The two counters have given the same states so far. */
  predicate AgreeUpto(states: seq<Sched>, ideal: seq<Sched>, i: nat)
    requires i < |states| == |ideal|
  {
    forall k | 0 <= k <= i :: states[k] == Wrapped(ideal[k])
  }

  /**
   The firmware's run is the run on an unbounded counter, up to how deadlines read, if and
   only if no tick misjudges a deadline.
   */
  lemma {:induction false} CountersAgreeIff(states: seq<Sched>, ideal: seq<Sched>, events: seq<Event>, boot: nat, i: nat)
    requires Follows(Wrapping, states, events) && Follows(Unbounded, ideal, events) && Timed(events, boot) && i <= |events|
    requires states[0] == Wrapped(ideal[0]) && NearDeadlines(ideal[0], boot)
    ensures AgreeUpto(states, ideal, i) <==> forall k | 0 <= k < i :: !Misjudged(ideal[k], events[k])
    decreases i
  {
    if i > 0 {
      CountersAgreeIff(states, ideal, events, boot, i - 1);
      StaysNear(ideal, events, boot, i - 1);
      StepAgreesIff(ideal[i - 1], events[i - 1]);
      assert AgreeUpto(states, ideal, i) <==> AgreeUpto(states, ideal, i - 1) && states[i] == Wrapped(ideal[i]);
      hide Step, Misjudged, Wrapped, NearDeadlines, Timed, AgreeUpto;
    }
  }

  lemma {:induction false} DeadlinesBeforeWrap(ideal: seq<Sched>, events: seq<Event>, boot: nat, i: nat)
    requires IsRun(Unbounded, ideal, events, boot) && i <= |events| && boot + 5000 < CLOCK_WRAP
    requires forall k | 0 <= k < i :: events[k].time + PAIRING_WINDOW_MS < CLOCK_WRAP
    ensures ideal[i].toggleAt < CLOCK_WRAP && ideal[i].pairingUntil < CLOCK_WRAP
    decreases i
  {
    if i > 0 {
      DeadlinesBeforeWrap(ideal, events, boot, i - 1);
      assert ideal[i] == Step(Unbounded, ideal[i - 1], events[i - 1]);
    }
  }

  /** In particular no deadline is misjudged while the counter is two minutes short of its first wrap. */
  lemma NoneMisjudgedBeforeWrap(ideal: seq<Sched>, events: seq<Event>, boot: nat, i: nat)
    requires IsRun(Unbounded, ideal, events, boot) && i < |events| && boot + 5000 < CLOCK_WRAP
    requires forall k | 0 <= k <= i :: events[k].time + PAIRING_WINDOW_MS < CLOCK_WRAP
    ensures !Misjudged(ideal[i], events[i])
  {
    DeadlinesBeforeWrap(ideal, events, boot, i);
    hide Step;
  }

  lemma RunsStartAlike(states: seq<Sched>, ideal: seq<Sched>, events: seq<Event>, boot: nat)
    requires IsRun(Wrapping, states, events, boot) && IsRun(Unbounded, ideal, events, boot)
    ensures states[0] == Wrapped(ideal[0]) && NearDeadlines(ideal[0], boot)
  {
    LaterWraps(boot, 5000);
    hide Millis, Add32;
    assert Millis(0) == 0;
  }

  /** The same from setup() on. */
  lemma RunsAgreeIff(states: seq<Sched>, ideal: seq<Sched>, events: seq<Event>, boot: nat, i: nat)
    requires IsRun(Wrapping, states, events, boot) && IsRun(Unbounded, ideal, events, boot) && Timed(events, boot) && i <= |events|
    ensures AgreeUpto(states, ideal, i) <==> forall k | 0 <= k < i :: !Misjudged(ideal[k], events[k])
  {
    RunsStartAlike(states, ideal, events, boot);
    hide Step, Misjudged, Wrapped, NearDeadlines, Timed, AgreeUpto, Later;
    CountersAgreeIff(states, ideal, events, boot, i);
  }

  // ----- Pairing and gamepads -----

  /** A request or a binding that sets the pairing mode. */
  predicate SetsPairing(e: Event) {
    e.PairingOn? || e.PairingOff? || e.GamepadBound?
  }

  /** How many events there were up to and including the last such one before event `i`; 0 if there was none. */
  function LastChange(events: seq<Event>, i: nat): (p: nat)
    requires i <= |events|
    ensures p <= i && (p > 0 ==> SetsPairing(events[p - 1]))
  {
    if i == 0 then 0 else if SetsPairing(events[i - 1]) then i else LastChange(events, i - 1)
  }

  /** The last millisecond of the window a request at `time` opens. */
  function WindowEnd(time: nat): nat {
    time + PAIRING_WINDOW_MS
  }

  /** The last such event before `i` asked for pairing, and no tick since has read past the end of its window. */
  predicate StillPairing(events: seq<Event>, i: nat)
    requires i <= |events|
  {
    var p := LastChange(events, i);
    && p > 0 && events[p - 1].PairingOn?
    && forall k | p <= k < i && events[k].Tick? :: Millis(events[k].time) <= Millis(WindowEnd(events[p - 1].time))
  }

  lemma StillPairingStep(events: seq<Event>, i: nat)
    requires i < |events|
    ensures var p := LastChange(events, i);
            && (StillPairing(events, i) ==> p > 0)
            && LastChange(events, i + 1) == (if SetsPairing(events[i]) then i + 1 else p)
            && (StillPairing(events, i + 1) <==>
                  match events[i]
                  case PairingOn(_) => true
                  case PairingOff(_) => false
                  case GamepadBound(_) => false
                  case GamepadLost(_) => StillPairing(events, i)
                  case Tick(time, _) => StillPairing(events, i) && Millis(time) <= Millis(WindowEnd(events[p - 1].time)))
  {
    hide Millis, WindowEnd;
    var p := LastChange(events, i);
    if StillPairing(events, i + 1) && p > 0 && !SetsPairing(events[i]) {
      assert forall k | p <= k < i && events[k].Tick? :: Millis(events[k].time) <= Millis(WindowEnd(events[p - 1].time));
    }
  }

  /** In every run, however often the counter wraps, pairing is on exactly when that is so. */
  lemma {:induction false} PairingIff(states: seq<Sched>, events: seq<Event>, boot: nat, i: nat)
    requires IsRun(Wrapping, states, events, boot) && i <= |events|
    ensures states[i].pairing <==> StillPairing(events, i)
    ensures states[i].pairing ==>
              LastChange(events, i) > 0 && states[i].pairingUntil == Millis(WindowEnd(events[LastChange(events, i) - 1].time))
    decreases i
  {
    hide Step, Millis, Add32, StillPairing, WindowEnd;
    if i > 0 {
      PairingIff(states, events, boot, i - 1);
      PairingStep(states[i - 1], events[i - 1]);
      StillPairingStep(events, i - 1);
      assert states[i] == Step(Wrapping, states[i - 1], events[i - 1]);
      hide IsRun;
    } else {
      NotPairingYet(events);
    }
  }

  lemma NotPairingYet(events: seq<Event>)
    ensures !StillPairing(events, 0)
  {}

  lemma PairingStep(s: Sched, e: Event)
    ensures var next := Step(Wrapping, s, e);
            match e
            case PairingOn(time) => next.pairing && next.pairingUntil == Millis(WindowEnd(time))
            case PairingOff(_) => !next.pairing
            case GamepadBound(_) => !next.pairing
            case GamepadLost(_) => next.pairing == s.pairing && next.pairingUntil == s.pairingUntil
            case Tick(time, _) => next.pairing == (s.pairing && Millis(time) <= s.pairingUntil) && next.pairingUntil == s.pairingUntil
  {
    if e.PairingOn? {
      LaterWraps(e.time, PAIRING_WINDOW_MS);
    }
    hide Millis, Add32;
  }

  /** A tick at `time` takes the window for open: rightly, or because the counter has wrapped since it ended. */
  predicate TakenForOpen(time: nat, until: nat) {
    if time <= until then !TooEarly(time, until) else StillOpen(time, until)
  }

  /**
   Scanning is off after any tick with a gamepad. Pairing is off after any tick later than
   the last request's window, except exactly when every tick since the request takes the
   window for open: each tick within it on the same side of a wrap as its end, and each
   later one after a wrap, with a reading not above that of the end.
   */
  lemma TickGuarantees(states: seq<Sched>, events: seq<Event>, boot: nat, i: nat)
    requires IsRun(Wrapping, states, events, boot) && Timed(events, boot)
    requires i < |events| && events[i].Tick?
    ensures events[i].connected ==> !states[i + 1].active
    ensures var p := LastChange(events, i);
            if p == 0 || !events[p - 1].PairingOn? then !states[i + 1].pairing
            else
              var until := WindowEnd(events[p - 1].time);
              && (states[i + 1].pairing <==> forall k | p <= k <= i && events[k].Tick? :: TakenForOpen(events[k].time, until))
              && (events[i].time > until && !StillOpen(events[i].time, until) ==> !states[i + 1].pairing)
  {
    hide Step, Millis, Add32, TooEarly, StillOpen;
    PairingIff(states, events, boot, i + 1);
    assert states[i + 1] == Step(Wrapping, states[i], events[i]);
    GamepadStopsScan(states[i], events[i].time);
    hide IsRun;
    var p := LastChange(events, i);
    assert LastChange(events, i + 1) == p;
    hide LastChange;
    if p > 0 && events[p - 1].PairingOn? {
      var until := WindowEnd(events[p - 1].time);
      forall k | p <= k <= i
        ensures TakenForOpen(events[k].time, until) <==> Millis(events[k].time) <= Millis(until)
      {
        TimesIncrease(events, boot, p - 1, k);
        ReadingIsTakenForOpen(events[k].time, until);
      }
      hide Timed;
    }
  }

  lemma GamepadStopsScan(s: Sched, time: nat)
    ensures !Step(Wrapping, s, Tick(time, true)).active
  {
    hide Millis, Add32;
  }

  lemma {:induction false} TimesIncrease(events: seq<Event>, boot: nat, i: nat, j: nat)
    requires Timed(events, boot) && i <= j < |events|
    ensures events[i].time <= events[j].time
    decreases j
  {
    if i < j {
      TimesIncrease(events, boot, i, j - 1);
    }
  }

  lemma ReadingIsTakenForOpen(time: nat, until: nat)
    requires until < time + CLOCK_WRAP
    ensures TakenForOpen(time, until) <==> Millis(time) <= Millis(until)
  {
    DeadlineReads(time, until);
    hide Millis, TooLate;
  }

  /** A window that ends just before the counter wraps, and a tick after the wrap that takes it for open. */
  lemma PairingCanOutlastWindow()
    ensures exists states: seq<Sched> ::
              && IsRun(Wrapping, states, [PairingOn(CLOCK_WRAP - 130000), Tick(CLOCK_WRAP, false)], 0)
              && states[2].pairing && CLOCK_WRAP > WindowEnd(CLOCK_WRAP - 130000)
  {
    var events := [PairingOn(CLOCK_WRAP - 130000), Tick(CLOCK_WRAP, false)];
    var s0 := Sched(false, 0, false, 5000, []);
    var s1 := Step(Wrapping, s0, events[0]);
    var s2 := Step(Wrapping, s1, events[1]);
    assert s1 == s0.(pairing := true, pairingUntil := CLOCK_WRAP - 10000, toggleAt := 0);
    assert s2.pairing;
    assert IsRun(Wrapping, [s0, s1, s2], events, 0);
    assert [s0, s1, s2][2] == s2;
  }

  /**
   How long a tick without a gamepad waits before the next switch: 1500 and 12000 ms when
   on and off, 3500 and 900 ms while pairing; with a gamepad it waits 2000 ms, off.
   */
  lemma SwitchTimes(s: Sched, time: nat, connected: bool)
    requires !s.pairing || Millis(time) <= s.pairingUntil
    ensures var next := TickStep(Wrapping, s, Millis(time), connected);
            if connected then !next.active && next.toggleAt == Millis(time + 2000)
            else if next.active == s.active then next == s && s.toggleAt != 0 && Millis(time) < s.toggleAt
            else
              && (s.toggleAt == 0 || Millis(time) >= s.toggleAt)
              && next.toggleAt ==
                   Millis(time + if s.pairing then (if next.active then 3500 else 900) else (if next.active then 1500 else 12000))
  {
    LaterWraps(time, 2000);
    LaterWraps(time, 3500);
    LaterWraps(time, 900);
    LaterWraps(time, 1500);
    LaterWraps(time, 12000);
    hide Millis, Add32;
  }

  /** The tick that finds the window over ends pairing, and without a gamepad switches at once, on idle times. */
  lemma ExpiryActsAtOnce(s: Sched, time: nat)
    requires s.pairing && Millis(time) > s.pairingUntil
    ensures var next := TickStep(Wrapping, s, Millis(time), false);
            && !next.pairing && next.active == !s.active
            && next.toggleAt == Millis(time + if next.active then 1500 else 12000)
    ensures !TickStep(Wrapping, s, Millis(time), true).pairing
  {
    LaterWraps(time, 1500);
    LaterWraps(time, 12000);
    hide Millis, Add32;
  }

  /** A pairing request opens a window of two minutes and, like losing the gamepad, lets the next tick switch at once. */
  lemma RequestsActAtOnce(s: Sched, time: nat)
    ensures var on := Step(Wrapping, s, PairingOn(time));
            on.pairing && on.pairingUntil == Millis(time + 120000) && on.toggleAt == 0 && on.active == s.active
    ensures var off := Step(Wrapping, s, PairingOff(time));
            !off.pairing && off.toggleAt == 0 && off.active == s.active
    ensures var lost := Step(Wrapping, s, GamepadLost(time));
            lost.toggleAt == 0 && lost.active == s.active && lost.pairing == s.pairing
    ensures var bound := Step(Wrapping, s, GamepadBound(time));
            !bound.pairing && bound.toggleAt == 0 && !bound.active
  {
    LaterWraps(time, 120000);
    hide Millis, Add32;
  }

  // ----- Idle stretches -----

  /**
   Ticks at `times` with no gamepad and no pairing: `states[i]` is the scheduler before
   tick `i`, and consecutive ticks are at most `gap` apart.
   */
  predicate IsIdle(states: seq<Sched>, times: seq<nat>, gap: nat) {
    && |states| == |times| + 1
    && !states[0].pairing
    && (forall i | 0 <= i < |times| :: states[i + 1] == TickStep(Wrapping, states[i], Millis(times[i]), false))
    && (forall i | 0 < i < |times| :: times[i - 1] <= times[i] <= times[i - 1] + gap)
  }

  function PulseMs(on: bool): nat {
    if on then AUTO_ON_MS else AUTO_OFF_MS
  }

  lemma IdleTick(s: Sched, now: nat)
    requires !s.pairing
    ensures var next := TickStep(Wrapping, s, now, false);
            if s.toggleAt != 0 && now < s.toggleAt then next == s
            else !next.pairing && next.active == !s.active && next.toggleAt == Add32(now, PulseMs(next.active))
  {
    hide Add32;
  }

  lemma {:induction false} StaysIdle(states: seq<Sched>, times: seq<nat>, gap: nat, i: nat)
    requires IsIdle(states, times, gap) && i <= |times|
    ensures !states[i].pairing
    decreases i
  {
    hide TickStep, Millis, Add32;
    if i > 0 {
      StaysIdle(states, times, gap, i - 1);
      IdleTick(states[i - 1], Millis(times[i - 1]));
    }
  }

  lemma {:induction false} TimesAreOrdered(states: seq<Sched>, times: seq<nat>, gap: nat, i: nat, j: nat)
    requires IsIdle(states, times, gap) && i <= j < |times|
    ensures times[i] <= times[j]
    decreases j
  {
    hide TickStep, Millis;
    if i < j {
      TimesAreOrdered(states, times, gap, i, j - 1);
    }
  }

  /** A tick takes the deadline for past: rightly unless it is too late, and wrongly when it is too early. */
  predicate TakenForPast(time: nat, deadline: nat) {
    if time < deadline then TooEarly(time, deadline) else !TooLate(time, deadline)
  }

  /** A tick of a pulse that ends at `deadline` ends it exactly when it takes the deadline for past, and begins the next one. */
  lemma PulseTickIff(s: Sched, deadline: nat, time: nat)
    requires !s.pairing && s.toggleAt == Millis(deadline) && deadline < time + CLOCK_WRAP
    ensures var next := TickStep(Wrapping, s, Millis(time), false);
            if TakenForPast(time, deadline) then next.active == !s.active && next.toggleAt == Millis(time + PulseMs(next.active))
            else next == s
  {
    IdleTick(s, Millis(time));
    DeadlineReads(time, deadline);
    LaterWraps(time, AUTO_ON_MS);
    LaterWraps(time, AUTO_OFF_MS);
    hide TickStep, Millis, StillOpen, Add32;
  }

  lemma SameSideOfWrap(first: nat, time: nat, deadline: nat)
    requires first <= time < deadline && !TooEarly(first, deadline)
    ensures !TooEarly(time, deadline)
  {}

  /** The pulse begun at tick `i` runs on through tick `j`, with the same deadline. */
  predicate Running(states: seq<Sched>, i: nat, j: nat)
    requires i <= j && j + 1 < |states|
  {
    forall k | i < k <= j + 1 :: states[k] == states[i + 1]
  }

  /** The tick at `i` begins a pulse. */
  predicate Begins(states: seq<Sched>, i: nat)
    requires i + 1 < |states|
  {
    states[i].active != states[i + 1].active
  }

  /** When the pulse begun at tick `i` is due to end. */
  function PulseEnd(states: seq<Sched>, times: seq<nat>, i: nat): nat
    requires i < |times| && i + 1 < |states|
  {
    times[i] + PulseMs(states[i + 1].active)
  }

  lemma PulseHasDeadline(states: seq<Sched>, times: seq<nat>, gap: nat, i: nat)
    requires IsIdle(states, times, gap) && i < |times| && Begins(states, i)
    ensures states[i + 1].toggleAt == Millis(PulseEnd(states, times, i))
  {
    StaysIdle(states, times, gap, i);
    IdleTick(states[i], Millis(times[i]));
    LaterWraps(times[i], PulseMs(states[i + 1].active));
    hide TickStep, Millis, Add32;
  }

  /** A running pulse ends at tick `j` exactly when that tick takes its deadline for past. */
  lemma PulseEndsIff(states: seq<Sched>, times: seq<nat>, gap: nat, i: nat, j: nat)
    requires IsIdle(states, times, gap) && i < j < |times|
    requires Begins(states, i) && Running(states, i, j - 1)
    ensures if TakenForPast(times[j], PulseEnd(states, times, i)) then states[j + 1].active != states[j].active
            else Running(states, i, j)
  {
    hide TickStep, Millis, TakenForPast;
    PulseHasDeadline(states, times, gap, i);
    StaysIdle(states, times, gap, j);
    TimesAreOrdered(states, times, gap, i, j);
    assert states[j] == states[i + 1];
    PulseTickIff(states[j], PulseEnd(states, times, i), times[j]);
  }

  lemma {:induction false} RunsUntilDeadline(states: seq<Sched>, times: seq<nat>, gap: nat, i: nat, j: nat)
    requires IsIdle(states, times, gap) && i < j < |times| && Begins(states, i)
    requires times[j] < PulseEnd(states, times, i) && !TooEarly(times[i + 1], PulseEnd(states, times, i))
    ensures Running(states, i, j)
    decreases j
  {
    hide TickStep, Millis, TooEarly, PulseEnd, Begins;
    if i + 1 < j {
      TimesAreOrdered(states, times, gap, j - 1, j);
      RunsUntilDeadline(states, times, gap, i, j - 1);
    }
    TimesAreOrdered(states, times, gap, i + 1, j);
    SameSideOfWrap(times[i + 1], times[j], PulseEnd(states, times, i));
    PulseEndsIff(states, times, gap, i, j);
  }

  /**
   A pulse that begins at tick `i` of an idle stretch and ends at tick `j` lasts at least
   1500 ms when on, and 12000 ms when off, unless its end lies beyond the next wrap of the
   counter and the very next tick comes before that wrap: exactly then it is cut short.
   */
  lemma PulsesAreLongIff(states: seq<Sched>, times: seq<nat>, gap: nat, i: nat, j: nat)
    requires IsIdle(states, times, gap) && i < j < |times|
    requires Begins(states, i) && Running(states, i, j - 1) && states[j + 1].active != states[j].active
    ensures times[j] >= PulseEnd(states, times, i) <==> !TooEarly(times[i + 1], PulseEnd(states, times, i))
  {
    var deadline := PulseEnd(states, times, i);
    hide TickStep, Millis, PulseEnd, Begins;
    TimesAreOrdered(states, times, gap, i + 1, j);
    if TooEarly(times[i + 1], deadline) {
      assert Running(states, i, i);
      PulseEndsIff(states, times, gap, i, i + 1);
    } else if times[j] < deadline {
      RunsUntilDeadline(states, times, gap, i, j);
    }
  }

  /**
   A running pulse ends at the first tick at or past its deadline, unless the counter
   wrapped in between and that tick's reading is still below the deadline's: exactly then
   it runs on, through every tick of the whole counter period after the deadline.
   */
  lemma PulsesEndOnTimeIff(states: seq<Sched>, times: seq<nat>, gap: nat, i: nat, j: nat)
    requires IsIdle(states, times, gap) && i < j < |times|
    requires Begins(states, i) && Running(states, i, j - 1) && times[j] >= PulseEnd(states, times, i)
    ensures var deadline := PulseEnd(states, times, i);
            && (states[j + 1].active != states[j].active <==> !TooLate(times[j], deadline))
            && (TooLate(times[j], deadline) ==>
                  forall k | j <= k < |times| && times[k] < deadline + CLOCK_WRAP :: Running(states, i, k))
  {
    var deadline := PulseEnd(states, times, i);
    PulseEndsIff(states, times, gap, i, j);
    hide TickStep, Millis, PulseEnd, Begins, TooLate;
    if TooLate(times[j], deadline) {
      assert states[j + 1] == states[i + 1] == states[j];
      forall k | j <= k < |times| && times[k] < deadline + CLOCK_WRAP
        ensures Running(states, i, k)
      {
        LatePulseRunsOn(states, times, gap, i, j, k);
      }
    }
  }

  lemma LateStaysLate(first: nat, time: nat, deadline: nat)
    requires TooLate(first, deadline) && first <= time < deadline + CLOCK_WRAP
    ensures time >= deadline && TooLate(time, deadline)
  {
    var e := deadline / CLOCK_WRAP;
    assert deadline == e * CLOCK_WRAP + Millis(deadline) && first / CLOCK_WRAP >= e + 1;
    assert time >= (e + 1) * CLOCK_WRAP && time < (e + 1) * CLOCK_WRAP + Millis(deadline);
    assert time / CLOCK_WRAP == e + 1;
    assert time == (e + 1) * CLOCK_WRAP + Millis(time);
  }

  lemma {:induction false} LatePulseRunsOn(states: seq<Sched>, times: seq<nat>, gap: nat, i: nat, j: nat, k: nat)
    requires IsIdle(states, times, gap) && i < j <= k < |times|
    requires Begins(states, i) && Running(states, i, j - 1)
    requires TooLate(times[j], PulseEnd(states, times, i)) && times[k] < PulseEnd(states, times, i) + CLOCK_WRAP
    ensures Running(states, i, k)
    decreases k
  {
    hide TickStep, Millis, PulseEnd, Begins, TooLate;
    TimesAreOrdered(states, times, gap, j, k);
    LateStaysLate(times[j], times[k], PulseEnd(states, times, i));
    if j < k {
      TimesAreOrdered(states, times, gap, k - 1, k);
      LatePulseRunsOn(states, times, gap, i, j, k - 1);
    }
    PulseEndsIff(states, times, gap, i, k);
  }

  /** A pulse begun a second before the counter wraps, and ended by the next tick, a millisecond later. */
  lemma PulseCanBeCutShort()
    ensures var times := [CLOCK_WRAP - 1000, CLOCK_WRAP - 999];
            var off := Sched(false, 0, false, 0, []);
            var on := Sched(false, 0, true, 500, [true]);
            IsIdle([off, on, Sched(false, 0, false, AUTO_OFF_MS - 999, [true, false])], times, 1)
  {}

  /** A pulse due to end half a second before the wrap, still on at a tick after it: no reading ends it for 49 days. */
  lemma PulseCanRunOn()
    ensures var times := [CLOCK_WRAP - 2000, CLOCK_WRAP];
            var off := Sched(false, 0, false, 0, []);
            var on := Sched(false, 0, true, CLOCK_WRAP - 500, [true]);
            && IsIdle([off, on, on], times, 2000)
            && PulseEnd([off, on, on], times, 0) == CLOCK_WRAP - 500 && TooLate(CLOCK_WRAP, CLOCK_WRAP - 500)
  {
    var off := Sched(false, 0, false, 0, []);
    var on := Sched(false, 0, true, CLOCK_WRAP - 500, [true]);
    assert TickStep(Wrapping, off, CLOCK_WRAP - 2000, false) == on;
    assert TickStep(Wrapping, on, 0, false) == on;
    assert Millis(CLOCK_WRAP) == 0 && Millis(CLOCK_WRAP - 2000) == CLOCK_WRAP - 2000;
    hide TickStep;
  }

  // ----- Scan duty -----

  /** Milliseconds scanned, and not scanned, between the first tick and tick `n`. */
  function Span(times: seq<nat>, n: nat): int
    requires 0 < n < |times|
  {
    (times[n] as int) - times[n - 1]
  }

  function OnTime(states: seq<Sched>, times: seq<nat>, n: nat): int
    requires n < |times| < |states|
  {
    if n == 0 then 0 else OnTime(states, times, n - 1) + if states[n].active then Span(times, n) else 0
  }

  function OffTime(states: seq<Sched>, times: seq<nat>, n: nat): int
    requires n < |times| < |states|
  {
    if n == 0 then 0 else OffTime(states, times, n - 1) + if states[n].active then 0 else Span(times, n)
  }

  /** The longest an on pulse can last. */
  function LongestOn(gap: nat): nat {
    AUTO_ON_MS + gap
  }

  /** When the pulse running before tick `i` is due to end; `first` is when the one running at the start is. */
  function DeadlineOf(states: seq<Sched>, times: seq<nat>, first: nat, i: nat): nat
    requires i <= |times| < |states|
  {
    if i == 0 then first
    else if Begins(states, i - 1) then PulseEnd(states, times, i - 1)
    else DeadlineOf(states, times, first, i - 1)
  }

  /** The tick makes an on pulse longer, or an off pulse shorter, than it is due to be. */
  predicate Harmful(active: bool, time: nat, deadline: nat) {
    if active then TooLate(time, deadline) else TooEarly(time, deadline)
  }

  /** How much longer than an ordinary pulse a stretch that begins while scanning may keep scanning. */
  function Excess(active: bool, deadline: int, start: int): nat {
    if active && deadline - start > AUTO_ON_MS then deadline - start - AUTO_ON_MS else 0
  }

  /**
   The books right after a tick at `t`: an on pulse is paid for by earlier off time, and
   after an off switch at most one pulse is still owed.
   */
  predicate Balanced(active: bool, deadline: int, t: int, on: int, off: int, gap: nat) {
    && off >= 0
    && if active then
         var started := deadline - AUTO_ON_MS;
         t < deadline && AUTO_OFF_MS * (on - (t - started)) <= LongestOn(gap) * off
       else
         on <= 0
         || (var stopped := deadline - AUTO_OFF_MS;
             && stopped <= t
             && AUTO_OFF_MS * on <= LongestOn(gap) * (off - (t - stopped)) + AUTO_OFF_MS * LongestOn(gap))
  }

  lemma ScaleUp(k: int, a: int, b: int)
    requires k >= 0 && a <= b
    ensures k * a <= k * b
  {
    assert k * (b - a) >= 0;
  }

  /** Every 12000 ms not scanned pay for one longest pulse, and one is free. */
  predicate PaidFor(on: int, off: int, gap: nat) {
    AUTO_OFF_MS * on <= LongestOn(gap) * (off + AUTO_OFF_MS)
  }

  /** The bound in milliseconds. */
  lemma PaidForInMilliseconds(on: int, off: int, gap: nat)
    ensures PaidFor(on, off, gap) <==> 12000 * on <= (1500 + gap) * (off + 12000)
  {}

  /** A stretch of scanning after which the books allow an off switch, or still more scanning before the deadline. */
  lemma OnIntervalBalances(deadline: int, t: int, now: int, on: int, off: int, gap: nat)
    requires Balanced(true, deadline, t, on, off, gap) && t <= now <= t + gap
    ensures Balanced(false, now + AUTO_OFF_MS, now, on + (now - t), off, gap)
    ensures now < deadline ==> Balanced(true, deadline, now, on + (now - t), off, gap)
    ensures PaidFor(on + (now - t), off, gap)
  {
    var started := deadline - AUTO_ON_MS;
    var k := LongestOn(gap);
    assert (on + (now - t)) - (now - started) == on - (t - started);
    assert now - started <= k;
    assert AUTO_OFF_MS * (on + (now - t)) <= k * off + AUTO_OFF_MS * k;
    Distribute(k, off, AUTO_OFF_MS);
  }

  /** A stretch without scanning after which the books allow more of it, or an on switch past the deadline. */
  lemma OffIntervalBalances(deadline: int, t: int, now: int, on: int, off: int, gap: nat)
    requires Balanced(false, deadline, t, on, off, gap) && t <= now <= t + gap
    ensures Balanced(false, deadline, now, on, off + (now - t), gap)
    ensures now >= deadline ==> Balanced(true, now + AUTO_ON_MS, now, on, off + (now - t), gap)
    ensures PaidFor(on, off + (now - t), gap)
  {
    var k := LongestOn(gap);
    var off' := off + (now - t);
    var stopped := deadline - AUTO_OFF_MS;
    assert off' - (now - stopped) == off - (t - stopped);
    Distribute(k, off', AUTO_OFF_MS);
    if on <= 0 {
      ScaleUp(k, 0, off');
      ScaleUp(k, 0, off' + AUTO_OFF_MS);
    } else {
      ScaleUp(k, off' - (now - stopped), off');
      if now >= deadline {
        ScaleUp(k, off' - (now - stopped), off' - AUTO_OFF_MS);
        assert k * (off' - AUTO_OFF_MS) == k * off' - k * AUTO_OFF_MS;
      }
    }
  }

  /** What a harmless tick makes of the running pulse and its deadline. */
  lemma DeadlineStep(states: seq<Sched>, times: seq<nat>, gap: nat, first: nat, n: nat)
    requires IsIdle(states, times, gap) && n < |times|
    requires states[n].toggleAt == Millis(DeadlineOf(states, times, first, n))
    requires DeadlineOf(states, times, first, n) < times[n] + CLOCK_WRAP
    requires !Harmful(states[n].active, times[n], DeadlineOf(states, times, first, n))
    ensures var deadline, next := DeadlineOf(states, times, first, n), DeadlineOf(states, times, first, n + 1);
            && states[n + 1].toggleAt == Millis(next) && next < times[n] + CLOCK_WRAP
            && (if Begins(states, n) then next == times[n] + PulseMs(states[n + 1].active) else next == deadline)
            && (states[n].active && !Begins(states, n) ==> times[n] < deadline)
            && (!states[n].active && Begins(states, n) ==> times[n] >= deadline)
  {
    StaysIdle(states, times, gap, n);
    PulseTickIff(states[n], DeadlineOf(states, times, first, n), times[n]);
    hide TickStep, Millis, TooEarly, TooLate;
  }

  /** The books after the first tick of a stretch. */
  lemma FirstTickBalances(was: bool, active: bool, first: int, deadline: int, t: int, gap: nat)
    requires if was != active then deadline == t + PulseMs(active) else deadline == first
    requires active && was ==> t < first
    ensures Balanced(active, deadline, t, 0 - Excess(was, first, t), 0, gap)
  {
    assert LongestOn(gap) * 0 == 0;
    hide LongestOn;
  }

  /** The books after one more tick. */
  lemma NextTickBalances(was: bool, active: bool, deadline: int, next: int, t: int, now: int, on: int, off: int, gap: nat)
    requires Balanced(was, deadline, t, on, off, gap) && t <= now <= t + gap
    requires if was != active then next == now + PulseMs(active) else next == deadline
    requires was && active ==> now < deadline
    requires !was && active ==> now >= deadline
    ensures var on', off' := if was then on + (now - t) else on, if was then off else off + (now - t);
            Balanced(active, next, now, on', off', gap) && PaidFor(on', off', gap)
  {
    hide Balanced, PaidFor;
    if was {
      OnIntervalBalances(deadline, t, now, on, off, gap);
    } else {
      OffIntervalBalances(deadline, t, now, on, off, gap);
    }
  }

  lemma {:induction false} DutyBalances(states: seq<Sched>, times: seq<nat>, gap: nat, first: nat, n: nat)
    requires IsIdle(states, times, gap) && n < |times|
    requires states[0].toggleAt == Millis(first) && first < times[0] + CLOCK_WRAP
    requires forall k | 0 <= k <= n :: !Harmful(states[k].active, times[k], DeadlineOf(states, times, first, k))
    ensures states[n + 1].toggleAt == Millis(DeadlineOf(states, times, first, n + 1))
    ensures DeadlineOf(states, times, first, n + 1) < times[n] + CLOCK_WRAP
    ensures Balanced(states[n + 1].active, DeadlineOf(states, times, first, n + 1), times[n],
                     OnTime(states, times, n) - Excess(states[0].active, first, times[0]), OffTime(states, times, n), gap)
    decreases n
  {
    hide TickStep, Millis, Harmful, Balanced, Excess, PulseEnd;
    if n == 0 {
      DeadlineStep(states, times, gap, first, 0);
      FirstTickBalances(states[0].active, states[1].active, first, DeadlineOf(states, times, first, 1), times[0], gap);
    } else {
      DutyBalances(states, times, gap, first, n - 1);
      TimesAreOrdered(states, times, gap, n - 1, n);
      assert times[n] <= times[n - 1] + gap;
      DeadlineStep(states, times, gap, first, n);
      UnfoldTimes(states, times, n);
      hide IsIdle, OnTime, OffTime, DeadlineOf;
      NextTickBalances(states[n].active, states[n + 1].active,
                       DeadlineOf(states, times, first, n), DeadlineOf(states, times, first, n + 1), times[n - 1], times[n],
                       OnTime(states, times, n - 1) - Excess(states[0].active, first, times[0]), OffTime(states, times, n - 1), gap);
    }
  }

  lemma UnfoldTimes(states: seq<Sched>, times: seq<nat>, n: nat)
    requires 0 < n < |times| < |states|
    ensures OnTime(states, times, n) == OnTime(states, times, n - 1) + if states[n].active then Span(times, n) else 0
    ensures OffTime(states, times, n) == OffTime(states, times, n - 1) + if states[n].active then 0 else Span(times, n)
  {}

  lemma Distribute(k: int, a: int, b: int)
    ensures k * (a + b) == k * a + k * b && k * (a - b) == k * a - k * b
  {}

  /**
   The scan duty of an idle stretch in which no tick misses the end of an on pulse or
   anticipates that of an off pulse: every 12000 ms not scanned pay for at most one pulse of
   1500 ms plus a tick gap, and one pulse is free, as is what a pulse running at the start
   has left beyond 1500 ms.
   */
  lemma ScanDutyIsBounded(states: seq<Sched>, times: seq<nat>, gap: nat, first: nat, n: nat)
    requires IsIdle(states, times, gap) && n < |times|
    requires states[0].toggleAt == Millis(first) && first < times[0] + CLOCK_WRAP
    requires forall k | 0 <= k < n :: !Harmful(states[k].active, times[k], DeadlineOf(states, times, first, k))
    ensures PaidFor(OnTime(states, times, n) - Excess(states[0].active, first, times[0]), OffTime(states, times, n), gap)
  {
    hide TickStep, Millis, Harmful, Balanced, Excess, PulseEnd, PaidFor, DeadlineOf, LongestOn;
    if n > 0 {
      DutyBalances(states, times, gap, first, n - 1);
      assert times[n - 1] <= times[n] <= times[n - 1] + gap;
      UnfoldTimes(states, times, n);
      hide IsIdle, OnTime, OffTime;
      var deadline, on, off := DeadlineOf(states, times, first, n),
                               OnTime(states, times, n - 1) - Excess(states[0].active, first, times[0]),
                               OffTime(states, times, n - 1);
      if states[n].active {
        OnIntervalBalances(deadline, times[n - 1], times[n], on, off, gap);
      } else {
        OffIntervalBalances(deadline, times[n - 1], times[n], on, off, gap);
      }
    } else {
      NothingPaid(Excess(states[0].active, first, times[0]), gap);
    }
  }

  lemma NothingPaid(excess: nat, gap: nat)
    ensures PaidFor(0 - excess, 0, gap)
  {
    ScaleUp(LongestOn(gap), 0, AUTO_OFF_MS);
  }
}
