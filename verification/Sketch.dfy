/**
 Bluepad32::update together with the connection callbacks of main/sketch.cpp that it calls.
 Each callback changes three things at once: the active gamepad (ControllerSeats), the
 silence timer and outputs (FailsafeLoop), and the scan scheduler (ScanScheduler). Here they
 run together, and stay in step.
 */
module Sketch {
  import opened Wrappers
  import opened Clock
  import Seats = ControllerSeats
  import Drivers = ControllerDrivers
  import Failsafe = FailsafeLoop
  import Scan = ScanScheduler

  /** The control loop after an update at `time` in which the bound gamepad left, another was bound, both, or neither. */
  function LoopAfter(s: Failsafe.Loop, lost: bool, bound: bool, time: nat): Failsafe.Loop {
    var left := if lost then Failsafe.AfterDisconnect(s) else s;
    if bound then Failsafe.AfterConnect(left, time) else left
  }

  /** The scan scheduler after the same. */
  function SchedulerAfter(s: Scan.Sched, lost: bool, bound: bool, time: nat): Scan.Sched {
    var left := if lost then Scan.Step(Scan.Wrapping, s, Scan.GamepadLost(time)) else s;
    if bound then Scan.Step(Scan.Wrapping, left, Scan.GamepadBound(time)) else left
  }

  predicate Lost(before: Option<nat>, after: Option<nat>) {
    before.Some? && after != before
  }

  predicate Bound(before: Option<nat>, after: Option<nat>) {
    after.Some? && after != before
  }

  /** The loop and the scheduler have seen the bound gamepad `before` become `after`. */
  predicate Told(loop: Failsafe.Loop, sched: Scan.Sched, before: Option<nat>,
                 loop': Failsafe.Loop, sched': Scan.Sched, after: Option<nat>, time: nat)
  {
    && loop' == LoopAfter(loop, Lost(before, after), Bound(before, after), time)
    && sched' == SchedulerAfter(sched, Lost(before, after), Bound(before, after), time)
  }

  /** What one edge at index `i` can make of the bound gamepad. */
  predicate EdgeChange(before: Option<nat>, after: Option<nat>, i: nat) {
    after == before || (before.None? && after == Some(i)) || (before == Some(i) && after.None?)
  }

  /** What the edges below index `i` can have made of it. */
  predicate EdgesChange(before: Option<nat>, after: Option<nat>, i: nat) {
    after == before || ((before.Some? ==> before.value < i) && (after.Some? ==> after.value < i))
  }

  /** One more edge adds at most one loss, and after it one binding. */
  lemma OneMoreEdge(loop0: Failsafe.Loop, sched0: Scan.Sched, g0: Option<nat>, loop1: Failsafe.Loop, sched1: Scan.Sched, g1: Option<nat>,
                    loop2: Failsafe.Loop, sched2: Scan.Sched, g2: Option<nat>, i: nat, time: nat)
    requires Told(loop0, sched0, g0, loop1, sched1, g1, time) && EdgesChange(g0, g1, i)
    requires Told(loop1, sched1, g1, loop2, sched2, g2, time) && EdgeChange(g1, g2, i)
    ensures Told(loop0, sched0, g0, loop2, sched2, g2, time) && EdgesChange(g0, g2, i + 1)
  {
    hide Scan.Step, Failsafe.AfterConnect, Failsafe.AfterDisconnect;
  }

  /** Nothing changed since the last update, so no callback is due. */
  lemma {:induction false} NoEdges(l: Seats.Link, pads: Seats.Flags, i: nat)
    requires i <= Seats.MAX_DEVICES
    ensures Seats.EdgesFrom(l, l.prev, pads, i) == l
    decreases Seats.MAX_DEVICES - i
  {
    if i < Seats.MAX_DEVICES {
      NoEdges(l, pads, i + 1);
    }
  }

  class Callbacks {
    const link: Drivers.Bluepad32
    const loop: Failsafe.ControlLoop
    const scheduler: Scan.Scheduler

    /** The loop takes a controller for bound exactly when g_gamepad points to a connected one. */
    ghost predicate Coupled()
      reads this, link, loop
    {
      && (loop.linked <==> link.gamepad.Some?)
      && (link.gamepad.Some? ==> link.gamepad.value < Seats.MAX_DEVICES && link.connected[link.gamepad.value])
    }

    constructor (link: Drivers.Bluepad32, loop: Failsafe.ControlLoop, scheduler: Scan.Scheduler)
      requires link.gamepad.None? && !loop.linked
      ensures this.link == link && this.loop == loop && this.scheduler == scheduler && Coupled()
    {
      this.link := link;
      this.loop := loop;
      this.scheduler := scheduler;
    }

    /** Binding is one event to all three: it happens to each of them or to none. */
    method OnConnectedController(i: nat, isPad: bool, ghost time: nat, now: nat)
      requires Coupled() && i < Seats.MAX_DEVICES && link.connected[i] && now == Millis(time)
      modifies link`gamepad, loop, scheduler
      ensures Coupled()
      ensures link.LinkState() == Seats.BindOnConnect(old(link.LinkState()), i, isPad)
      ensures isPad && !old(loop.linked) ==>
                && link.gamepad == Some(i)
                && Failsafe.Next(old(loop.State()), Failsafe.Connect(time), loop.State())
                && scheduler.State() == Scan.Step(Scan.Wrapping, old(scheduler.State()), Scan.GamepadBound(time))
      ensures !isPad || old(loop.linked) ==>
                && link.gamepad == old(link.gamepad)
                && loop.State() == old(loop.State())
                && scheduler.State() == old(scheduler.State())
    {
      var binds := isPad && !loop.linked;
      link.BindGamepad(i, isPad);
      loop.OnConnectedController(time, now, isPad);
      if binds {
        scheduler.OnGamepadBound(time, now);
      }
    }

    /** So is losing the bound gamepad; other controllers that leave change nothing. */
    method OnDisconnectedController(i: nat, ghost time: nat, now: nat)
      requires Coupled() && loop.model.InSync() && now == Millis(time)
      modifies link`gamepad, loop, loop.model, scheduler
      ensures Coupled() && loop.model.InSync()
      ensures link.LinkState() == Seats.UnbindOnDisconnect(old(link.LinkState()), i)
      ensures old(link.gamepad) == Some(i) ==>
                && Failsafe.Next(old(loop.State()), Failsafe.Disconnect(time), loop.State())
                && scheduler.State() == Scan.Step(Scan.Wrapping, old(scheduler.State()), Scan.GamepadLost(time))
      ensures old(link.gamepad) != Some(i) ==>
                && loop.State() == old(loop.State())
                && scheduler.State() == old(scheduler.State())
    {
      var isBound := link.gamepad == Some(i);
      link.UnbindGamepad(i);
      loop.OnDisconnectedController(time, isBound);
      if isBound {
        scheduler.OnGamepadLost(time, now);
      }
    }

    // ----- Bluepad32::update -----

    /**
     Bluepad32::update; `pads` says which seats hold a gamepad rather than a mouse, keyboard
     or board. The link is updated as ControllerSeats describes; the control loop and the
     scheduler see the bound gamepad leave, then a new one bound, exactly as the link does;
     and an update that finds the bound gamepad's seat empty leaves the outputs safe.
     */
    method Update(pads: Seats.Flags, ghost time: nat, now: nat) returns (dataUpdated: bool)
      requires Coupled() && Seats.LinkInv(link.LinkState()) && loop.model.InSync() && now == Millis(time)
      modifies link, link.platform`seats, loop, loop.model, scheduler
      ensures Coupled() && Seats.LinkInv(link.LinkState()) && loop.model.InSync()
      ensures link.platform.State() == Seats.Polled(old(link.platform.State()))
      ensures link.LinkState() == Seats.Updated(old(link.LinkState()), Seats.Occupancy(old(link.platform.seats)), pads)
      ensures dataUpdated <==>
              exists i | 0 <= i < Seats.MAX_DEVICES :: old(link.platform.seats)[i].Occupied? && old(link.platform.seats)[i].updated
      ensures forall i | 0 <= i < Seats.MAX_DEVICES ::
                link.hasData[i] == if old(link.platform.seats)[i].Free? then old(link.hasData)[i] else old(link.platform.seats)[i].updated
      ensures Told(old(loop.State()), old(scheduler.State()), old(link.gamepad), loop.State(), scheduler.State(), link.gamepad, time)
      ensures old(link.gamepad).Some? && old(link.platform.seats)[old(link.gamepad).value].Free? ==> loop.State().safe
    {
      hide Seats.Occupancy, Seats.EdgeStep, Seats.PolledSeats, Seats.PolledSeat, Scan.Step, EdgeChange;
      ghost var link0, loop0, sched0 := link.LinkState(), loop.State(), scheduler.State();
      var current: Seats.Flags;
      current, dataUpdated := link.PollSeats();
      Seats.UpdateEffect(link0, current, pads);
      if current == link.prev {
        NoEdges(link0, pads, 0);
        OccupancyAt(old(link.platform.seats));
        return;
      }
      ghost var polled, data := link.platform.seats, link.hasData;
      assert Told(loop0, sched0, link0.gamepad, loop.State(), scheduler.State(), link.gamepad, time);
      hide Told;
      var i := 0;
      while i < Seats.MAX_DEVICES
        invariant 0 <= i <= Seats.MAX_DEVICES && link.platform.State() == Seats.Polled(old(link.platform.State()))
        invariant link.platform.seats == polled && link.hasData == data && link.prev == link0.prev
        invariant Coupled() && loop.model.InSync()
        invariant Seats.EdgesFrom(link.LinkState(), current, pads, i) == Seats.EdgesFrom(link0, current, pads, 0)
        invariant EdgesChange(link0.gamepad, link.gamepad, i)
        invariant Told(loop0, sched0, link0.gamepad, loop.State(), scheduler.State(), link.gamepad, time)
      {
        ghost var loop1, sched1, g1 := loop.State(), scheduler.State(), link.gamepad;
        ReportEdge(current, pads, i, time, now);
        OneMoreEdge(loop0, sched0, link0.gamepad, loop1, sched1, g1, loop.State(), scheduler.State(), link.gamepad, i, time);
        i := i + 1;
      }
      link.prev := current;
      OccupancyAt(old(link.platform.seats));
      if Lost(link0.gamepad, link.gamepad) {
        LostMeansSafe(loop0, sched0, link0.gamepad, loop.State(), scheduler.State(), link.gamepad, time);
      }
    }

    /** The body of the edge loop. */
    method ReportEdge(current: Seats.Flags, pads: Seats.Flags, i: nat, ghost time: nat, now: nat)
      requires Coupled() && loop.model.InSync() && i < Seats.MAX_DEVICES && now == Millis(time)
      modifies link`connected, link`gamepad, link`log, loop, loop.model, scheduler
      ensures Coupled() && loop.model.InSync()
      ensures link.LinkState() == Seats.EdgeStep(old(link.LinkState()), current, pads, i)
      ensures EdgeChange(old(link.gamepad), link.gamepad, i)
      ensures Told(old(loop.State()), old(scheduler.State()), old(link.gamepad), loop.State(), scheduler.State(), link.gamepad, time)
    {
      hide Scan.Step;
      if current[i] == link.prev[i] {
        return;
      }
      if current[i] {
        link.connected := link.connected[i := true];
        link.log := link.log + [Seats.OnConnect(i)];
        OnConnectedController(i, pads[i], time, now);
      } else {
        link.log := link.log + [Seats.OnDisconnect(i)];
        OnDisconnectedController(i, time, now);
        link.connected := link.connected[i := false];
      }
    }
  }

  /** Losing the gamepad makes the outputs safe, and binding another leaves them so. */
  lemma LostMeansSafe(loop: Failsafe.Loop, sched: Scan.Sched, before: Option<nat>,
                      loop': Failsafe.Loop, sched': Scan.Sched, after: Option<nat>, time: nat)
    requires Told(loop, sched, before, loop', sched', after, time) && Lost(before, after)
    ensures loop'.safe
  {
    hide Scan.Step, Millis;
  }

  lemma OccupancyAt(seats: Seats.Seats)
    ensures forall i | 0 <= i < Seats.MAX_DEVICES :: Seats.Occupancy(seats)[i] == seats[i].Occupied?
  {}
}
