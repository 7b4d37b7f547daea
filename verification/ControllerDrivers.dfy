/**
 The two sides of the controller bridge as they update their state: the platform's event
 handlers and the polling half of Bluepad32::update, proved against the functions of
 ControllerSeats. The edge loop, which calls back into the sketch, is in module Sketch.
 */
module ControllerDrivers {
  import opened Wrappers
  import opened ControllerSeats

  datatype DataStatus = InvalidDevice | NoData | Fresh

  class Platform {
    var seats: Seats
    var used: int
    var index: map<Device, int>

    ghost function State(): Table
      reads this
    {
      Table(seats, used, index)
    }

    /** arduino_init */
    constructor ()
      ensures State() == IDLE.table
    {
      seats := [Free, Free, Free, Free];
      used := 0;
      index := map[];
    }

    method OnDeviceConnected(d: Device)
      modifies this
      ensures State() == Connected(old(State()), d)
    {
      index := index[d := INVALID];
    }

    method OnDeviceReady(d: Device) returns (r: Status)
      requires d in index
      modifies this
      ensures (State(), r) == Ready(old(State()), d)
    {
      if used == MAX_DEVICES {
        return NoSlots;
      }
      if index[d] != INVALID {
        return InvalidController;
      }
      var i := 0;
      while i < MAX_DEVICES
        invariant 0 <= i <= MAX_DEVICES
        invariant State() == old(State())
        invariant FirstFree(seats, i) == FirstFree(seats, 0)
      {
        if seats[i].Free? {
          seats := seats[i := Occupied(d, false)];
          index := index[d := i];
          used := used + 1;
          return Status.Accepted;
        }
        i := i + 1;
      }
      return Status.Accepted;
    }

    method OnControllerData(d: Device)
      requires d in index
      modifies this
      ensures State() == Reported(old(State()), d)
    {
      var i := index[d];
      if 0 <= i < MAX_DEVICES && seats[i].Occupied? {
        seats := seats[i := seats[i].(updated := true)];
      }
    }

    method OnDeviceDisconnected(d: Device)
      requires d in index
      modifies this
      ensures State() == Disconnected(old(State()), d)
    {
      var i := index[d];
      if i != INVALID && 0 <= i < MAX_DEVICES {
        used := used - 1;
        seats := seats[i := Free];
      }
      index := index - {d};
    }

    /** arduino_get_controller_data: a waiting report is handed out once. */
    method GetControllerData(i: nat) returns (r: DataStatus)
      requires i < MAX_DEVICES
      modifies this`seats
      ensures seats == old(seats)[i := PolledSeat(old(seats)[i])]
      ensures r == if old(seats)[i].Free? then InvalidDevice else if old(seats)[i].updated then Fresh else NoData
    {
      if seats[i].Free? {
        return InvalidDevice;
      }
      if seats[i].updated {
        seats := seats[i := seats[i].(updated := false)];
        return Fresh;
      }
      return NoData;
    }
  }

  class Bluepad32 {
    const platform: Platform
    var prev: Flags
    var connected: Flags
    var hasData: Flags
    var gamepad: Option<nat>
    var log: seq<Callback>

    ghost function LinkState(): Link
      reads this
    {
      Link(prev, connected, gamepad, log)
    }

    constructor (platform: Platform)
      ensures this.platform == platform && LinkState() == IDLE.link && hasData == [false, false, false, false]
    {
      this.platform := platform;
      prev := [false, false, false, false];
      connected := [false, false, false, false];
      hasData := [false, false, false, false];
      gamepad := None;
      log := [];
    }

    /** What onConnectedController makes of g_gamepad. */
    method BindGamepad(i: nat, isPad: bool)
      requires i < MAX_DEVICES
      modifies this`gamepad
      ensures LinkState() == BindOnConnect(old(LinkState()), i, isPad)
    {
      if !isPad {
        return;
      }
      if gamepad.Some? && gamepad.value < MAX_DEVICES && connected[gamepad.value] {
        return;
      }
      gamepad := Some(i);
    }

    /** What onDisconnectedController makes of g_gamepad. */
    method UnbindGamepad(i: nat)
      modifies this`gamepad
      ensures LinkState() == UnbindOnDisconnect(old(LinkState()), i)
    {
      if gamepad == Some(i) {
        gamepad := None;
      }
    }

    /** The polling loop: collects the occupied seats and the reports waiting on them. */
    method PollSeats() returns (current: Flags, dataUpdated: bool)
      modifies this`hasData, platform`seats
      ensures platform.seats == PolledSeats(old(platform.seats))
      ensures current == Occupancy(old(platform.seats))
      ensures dataUpdated <==> exists i | 0 <= i < MAX_DEVICES :: old(platform.seats)[i].Occupied? && old(platform.seats)[i].updated
      ensures forall i | 0 <= i < MAX_DEVICES ::
                hasData[i] == if old(platform.seats)[i].Free? then old(hasData)[i] else old(platform.seats)[i].updated
    {
      current := [false, false, false, false];
      dataUpdated := false;
      ghost var seats0, data0 := platform.seats, hasData;
      var i := 0;
      while i < MAX_DEVICES
        invariant 0 <= i <= MAX_DEVICES
        invariant forall j | 0 <= j < MAX_DEVICES :: platform.seats[j] == if j < i then PolledSeat(seats0[j]) else seats0[j]
        invariant forall j | 0 <= j < MAX_DEVICES :: current[j] == (j < i && seats0[j].Occupied?)
        invariant forall j | 0 <= j < MAX_DEVICES ::
                    hasData[j] == if j >= i || seats0[j].Free? then data0[j] else seats0[j].updated
        invariant dataUpdated <==> exists j | 0 <= j < i :: seats0[j].Occupied? && seats0[j].updated
      {
        var status := platform.GetControllerData(i);
        if status != InvalidDevice {
          if status == Fresh {
            dataUpdated := true;
          }
          hasData := hasData[i := status == Fresh];
          current := current[i := true];
        }
        i := i + 1;
      }
    }
  }
}
