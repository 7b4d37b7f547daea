/**
 Controller seats and the binding of the active gamepad: the seat table of
 components/bluepad32_arduino/arduino_platform.c, the edge detection of
 components/bluepad32_arduino/ArduinoBluepad32.cpp and the connection callbacks of
 main/sketch.cpp.
 */
module ControllerSeats {
  import opened Wrappers

  const MAX_DEVICES := 4

  const INVALID := -1

  type Device = nat

  /** An occupied seat remembers its device and whether a report is waiting. */
  datatype Seat = Free | Occupied(device: Device, updated: bool)

  type Seats = s: seq<Seat> | |s| == MAX_DEVICES witness [Free, Free, Free, Free]

  type Flags = s: seq<bool> | |s| == MAX_DEVICES witness [false, false, false, false]

  /** The seat table, its counter, and each connected device's seat index or INVALID. */
  datatype Table = Table(seats: Seats, used: int, index: map<Device, int>)

  datatype Status = Accepted | NoSlots | InvalidController

  function Count(seats: Seats, n: nat): nat
    requires n <= MAX_DEVICES
  {
    if n == 0 then 0 else Count(seats, n - 1) + if seats[n - 1].Occupied? then 1 else 0
  }

  predicate SeatAgrees(t: Table, i: nat)
    requires i < MAX_DEVICES
  {
    t.seats[i].Occupied? ==> t.seats[i].device in t.index && t.index[t.seats[i].device] == i
  }

  predicate DeviceAgrees(t: Table, d: Device)
    requires d in t.index
  {
    t.index[d] == INVALID || (0 <= t.index[d] < MAX_DEVICES && t.seats[t.index[d]].Occupied? && t.seats[t.index[d]].device == d)
  }

  /** Seats and devices point at each other, and the counter counts the occupied seats. */
  predicate Inv(t: Table) {
    && (forall i | 0 <= i < MAX_DEVICES :: SeatAgrees(t, i))
    && (forall d | d in t.index :: DeviceAgrees(t, d))
    && t.used == Count(t.seats, MAX_DEVICES)
  }

  // ----- The platform's event handlers on the table -----

  function FirstFree(seats: Seats, i: nat): (r: Option<nat>)
    requires i <= MAX_DEVICES
    ensures r.Some? ==> i <= r.value < MAX_DEVICES && seats[r.value].Free? && forall j | i <= j < r.value :: seats[j].Occupied?
    ensures r.None? ==> forall j | i <= j < MAX_DEVICES :: seats[j].Occupied?
    decreases MAX_DEVICES - i
  {
    if i == MAX_DEVICES then None else if seats[i].Free? then Some(i) else FirstFree(seats, i + 1)
  }

  function Connected(t: Table, d: Device): Table {
    t.(index := t.index[d := INVALID])
  }

  function Ready(t: Table, d: Device): (Table, Status)
    requires d in t.index
  {
    if t.used == MAX_DEVICES then (t, NoSlots)
    else if t.index[d] != INVALID then (t, InvalidController)
    else
      match FirstFree(t.seats, 0)
      case Some(i) => (Table(t.seats[i := Occupied(d, false)], t.used + 1, t.index[d := i]), Accepted)
      case None => (t, Accepted)
  }

  /** The device is forgotten afterwards. */
  function Disconnected(t: Table, d: Device): Table
    requires d in t.index
  {
    var i := t.index[d];
    if 0 <= i < MAX_DEVICES then Table(t.seats[i := Free], t.used - 1, t.index - {d}) else t.(index := t.index - {d})
  }

  function Reported(t: Table, d: Device): Table
    requires d in t.index
  {
    var i := t.index[d];
    if 0 <= i < MAX_DEVICES && t.seats[i].Occupied? then t.(seats := t.seats[i := t.seats[i].(updated := true)]) else t
  }

  /** arduino_get_controller_data for every seat: waiting reports are consumed. */
  function Polled(t: Table): Table {
    t.(seats := PolledSeats(t.seats))
  }

  function PolledSeats(seats: Seats): (r: Seats)
    ensures forall i | 0 <= i < MAX_DEVICES :: r[i] == PolledSeat(seats[i])
  {
    seq(MAX_DEVICES, i requires 0 <= i < MAX_DEVICES => PolledSeat(seats[i]))
  }

  function PolledSeat(s: Seat): Seat {
    if s.Occupied? then s.(updated := false) else s
  }

  /** A report of a seated device waits on that seat, and on no other, until the seats are polled, which loses no seat. */
  lemma ReportWaits(t: Table, d: Device)
    requires Inv(t) && d in t.index
    ensures var r := Reported(t, d);
            && r.used == t.used && r.index == t.index
            && forall i | 0 <= i < MAX_DEVICES ::
                 r.seats[i] == if t.seats[i].Occupied? && t.seats[i].device == d then Occupied(d, true) else t.seats[i]
    ensures forall i | 0 <= i < MAX_DEVICES ::
              Polled(t).seats[i] == if t.seats[i].Occupied? then Occupied(t.seats[i].device, false) else Free
  {
    assert DeviceAgrees(t, d);
    forall i | 0 <= i < MAX_DEVICES && t.seats[i].Occupied? && t.seats[i].device == d
      ensures t.index[d] == i
    {
      assert SeatAgrees(t, i);
    }
    hide Count, Inv;
  }

  // ----- The invariant -----

  lemma {:induction false} CountUpdate(seats: Seats, i: nat, s: Seat, n: nat)
    requires i < MAX_DEVICES && n <= MAX_DEVICES
    ensures Count(seats[i := s], n) ==
              Count(seats, n) + if i < n then (if s.Occupied? then 1 else 0) - (if seats[i].Occupied? then 1 else 0) else 0
    decreases n
  {
    if n > 0 {
      CountUpdate(seats, i, s, n - 1);
    }
  }

  lemma {:induction false} CountFull(seats: Seats, n: nat)
    requires n <= MAX_DEVICES
    ensures Count(seats, n) <= n
    ensures Count(seats, n) == n <==> forall i | 0 <= i < n :: seats[i].Occupied?
    decreases n
  {
    if n > 0 {
      CountFull(seats, n - 1);
    }
  }

  /** No two devices share a seat. */
  lemma SeatsAreExclusive(t: Table, a: Device, b: Device)
    requires Inv(t) && a in t.index && b in t.index && t.index[a] == t.index[b] != INVALID
    ensures a == b
  {
    hide SeatAgrees, Count;
    assert DeviceAgrees(t, a) && DeviceAgrees(t, b);
  }

  lemma ConnectedKeepsInv(t: Table, d: Device)
    requires Inv(t) && d !in t.index
    ensures Inv(Connected(t, d))
  {
    hide Count;
    forall i | 0 <= i < MAX_DEVICES ensures SeatAgrees(Connected(t, d), i) {
      assert SeatAgrees(t, i);
    }
    forall e | e in Connected(t, d).index ensures DeviceAgrees(Connected(t, d), e) {
      assert e != d ==> DeviceAgrees(t, e);
    }
  }

  lemma ReadyKeepsInv(t: Table, d: Device)
    requires Inv(t) && d in t.index
    ensures Inv(Ready(t, d).0)
  {
    var after := Ready(t, d).0;
    var free := FirstFree(t.seats, 0);
    if after != t {
      CountUpdate(t.seats, free.value, Occupied(d, false), MAX_DEVICES);
      hide Count;
      forall i | 0 <= i < MAX_DEVICES ensures SeatAgrees(after, i) {
        assert SeatAgrees(t, i);
      }
      forall e | e in after.index ensures DeviceAgrees(after, e) {
        assert DeviceAgrees(t, e);
      }
    }
  }

  /** A connected device without a seat gets one exactly when a seat is free. */
  lemma ReadyGetsSeatIff(t: Table, d: Device)
    requires Inv(t) && d in t.index && t.index[d] == INVALID
    ensures Ready(t, d).1 == Accepted <==> exists i | 0 <= i < MAX_DEVICES :: t.seats[i].Free?
    ensures Ready(t, d).1 == Accepted ==>
              var i := Ready(t, d).0.index[d];
              0 <= i < MAX_DEVICES && t.seats[i].Free? && Ready(t, d).0.seats[i] == Occupied(d, false)
    ensures Ready(t, d).1 != Accepted ==> Ready(t, d).0 == t
  {
    CountFull(t.seats, MAX_DEVICES);
    hide Count, SeatAgrees, DeviceAgrees;
  }

  lemma DisconnectedKeepsInv(t: Table, d: Device)
    requires Inv(t) && d in t.index
    ensures Inv(Disconnected(t, d))
  {
    var after := Disconnected(t, d);
    assert DeviceAgrees(t, d);
    if t.index[d] != INVALID {
      CountUpdate(t.seats, t.index[d], Free, MAX_DEVICES);
    }
    hide Count;
    forall i | 0 <= i < MAX_DEVICES ensures SeatAgrees(after, i) {
      assert SeatAgrees(t, i);
    }
    forall e | e in after.index ensures DeviceAgrees(after, e) {
      assert DeviceAgrees(t, e);
    }
  }

  lemma {:induction false} SameOccupancy(a: Seats, b: Seats, n: nat)
    requires n <= MAX_DEVICES && forall i | 0 <= i < n :: a[i].Occupied? <==> b[i].Occupied?
    ensures Count(a, n) == Count(b, n)
    decreases n
  {
    if n > 0 {
      SameOccupancy(a, b, n - 1);
    }
  }

  lemma MarksKeepInv(t: Table, seats: Seats)
    requires Inv(t)
    requires forall i | 0 <= i < MAX_DEVICES ::
               (t.seats[i].Occupied? <==> seats[i].Occupied?) && (t.seats[i].Occupied? ==> seats[i].device == t.seats[i].device)
    ensures Inv(t.(seats := seats))
  {
    SameOccupancy(t.seats, seats, MAX_DEVICES);
    hide Count;
    forall i | 0 <= i < MAX_DEVICES ensures SeatAgrees(t.(seats := seats), i) {
      assert SeatAgrees(t, i);
    }
    forall e | e in t.index ensures DeviceAgrees(t.(seats := seats), e) {
      assert DeviceAgrees(t, e);
    }
  }

  // ----- Edge detection and the active gamepad -----

  datatype Callback = OnConnect(index: nat) | OnDisconnect(index: nat)

  /** Bluepad32's previous bit mask, the controllers' connected flags, g_gamepad, and the callbacks made so far. */
  datatype Link = Link(prev: Flags, connected: Flags, gamepad: Option<nat>, log: seq<Callback>)

  predicate LinkInv(l: Link) {
    l.prev == l.connected && (l.gamepad.Some? ==> l.gamepad.value < MAX_DEVICES && l.connected[l.gamepad.value])
  }

  /** onConnectedController: mice, keyboards and balance boards are ignored, and a live gamepad is kept. */
  function BindOnConnect(l: Link, i: nat, isPad: bool): Link {
    if !isPad then l
    else if l.gamepad.Some? && l.gamepad.value < MAX_DEVICES && l.connected[l.gamepad.value] then l
    else l.(gamepad := Some(i))
  }

  /** onDisconnectedController */
  function UnbindOnDisconnect(l: Link, i: nat): Link {
    if l.gamepad == Some(i) then l.(gamepad := None) else l
  }

  function EdgeStep(l: Link, current: Flags, pads: Flags, i: nat): Link
    requires i < MAX_DEVICES
  {
    if current[i] == l.prev[i] then l
    else if current[i] then
      BindOnConnect(l.(connected := l.connected[i := true], log := l.log + [OnConnect(i)]), i, pads[i])
    else
      var unbound := UnbindOnDisconnect(l.(log := l.log + [OnDisconnect(i)]), i);
      unbound.(connected := unbound.connected[i := false])
  }

  function EdgesFrom(l: Link, current: Flags, pads: Flags, i: nat): Link
    requires i <= MAX_DEVICES
    decreases MAX_DEVICES - i
  {
    if i == MAX_DEVICES then l.(prev := current) else EdgesFrom(EdgeStep(l, current, pads, i), current, pads, i + 1)
  }

  /** Bluepad32::update on the link, given which seats are occupied and which hold a gamepad. */
  function Updated(l: Link, current: Flags, pads: Flags): Link {
    EdgesFrom(l, current, pads, 0)
  }

  /** The link while the edge loop stands at index `i`. */
  predicate MidUpdate(l: Link, current: Flags, i: nat) {
    && i <= MAX_DEVICES
    && (forall j | 0 <= j < i :: l.connected[j] == current[j])
    && (forall j | i <= j < MAX_DEVICES :: l.connected[j] == l.prev[j])
    && (l.gamepad.Some? ==> l.gamepad.value < MAX_DEVICES && l.connected[l.gamepad.value])
  }

  lemma EdgeKeepsMid(l: Link, current: Flags, pads: Flags, i: nat)
    requires i < MAX_DEVICES && MidUpdate(l, current, i)
    ensures MidUpdate(EdgeStep(l, current, pads, i), current, i + 1)
    ensures EdgeStep(l, current, pads, i).prev == l.prev
  {}

  /** The gamepad index the first newly connected pad from `from` on would give. */
  function NewPad(prev: Flags, current: Flags, pads: Flags, from: nat): Option<nat>
    requires from <= MAX_DEVICES
    decreases MAX_DEVICES - from
  {
    if from == MAX_DEVICES then None
    else if current[from] && !prev[from] && pads[from] then Some(from)
    else NewPad(prev, current, pads, from + 1)
  }

  /** What an update makes of the active gamepad, from index `from` on. */
  function Successor(gamepad: Option<nat>, prev: Flags, current: Flags, pads: Flags, from: nat): Option<nat>
    requires from <= MAX_DEVICES && (gamepad.Some? ==> gamepad.value < MAX_DEVICES)
  {
    match gamepad
    case None => NewPad(prev, current, pads, from)
    case Some(g) => if g < from || current[g] then gamepad else NewPad(prev, current, pads, g + 1)
  }

  lemma EdgeFollowsSuccessor(l: Link, current: Flags, pads: Flags, i: nat)
    requires i < MAX_DEVICES && MidUpdate(l, current, i)
    ensures var next := EdgeStep(l, current, pads, i);
            && (next.gamepad.Some? ==> next.gamepad.value < MAX_DEVICES)
            && Successor(next.gamepad, l.prev, current, pads, i + 1) == Successor(l.gamepad, l.prev, current, pads, i)
  {
    EdgeKeepsMid(l, current, pads, i);
  }

  lemma {:induction false} EdgesFromEffect(l: Link, current: Flags, pads: Flags, i: nat)
    requires MidUpdate(l, current, i)
    ensures var r := EdgesFrom(l, current, pads, i);
            LinkInv(r) && r.prev == current && r.gamepad == Successor(l.gamepad, l.prev, current, pads, i)
    decreases MAX_DEVICES - i
  {
    if i < MAX_DEVICES {
      EdgeKeepsMid(l, current, pads, i);
      EdgeFollowsSuccessor(l, current, pads, i);
      hide EdgeStep, MidUpdate, Successor, NewPad;
      EdgesFromEffect(EdgeStep(l, current, pads, i), current, pads, i + 1);
    } else {
      assert l.connected == current;
    }
  }

  /**
   After an update the flags match the seats and a bound gamepad is connected. A gamepad
   stays bound while its seat is occupied; when it leaves, only pads that join at a
   higher index in the same update can replace it.
   */
  lemma UpdateEffect(l: Link, current: Flags, pads: Flags)
    requires LinkInv(l)
    ensures var r := Updated(l, current, pads);
            && LinkInv(r) && r.connected == current
            && r.gamepad == Successor(l.gamepad, l.prev, current, pads, 0)
  {
    EdgesFromEffect(l, current, pads, 0);
  }

  /** A connected pad is not always bound: it joins below a bound pad that leaves in the same update. */
  lemma ConnectedPadCanStayUnbound()
    ensures var l := Link([false, true, false, false], [false, true, false, false], Some(1), []);
            var current := [true, false, false, false];
            LinkInv(l) && Updated(l, current, [true, true, true, true]).gamepad == None
  {
    var l := Link([false, true, false, false], [false, true, false, false], Some(1), []);
    UpdateEffect(l, [true, false, false, false], [true, true, true, true]);
    assert NewPad(l.prev, [true, false, false, false], [true, true, true, true], 4) == None;
    assert NewPad(l.prev, [true, false, false, false], [true, true, true, true], 3) == None;
    assert NewPad(l.prev, [true, false, false, false], [true, true, true, true], 2) == None;
  }

  /** A gamepad joins at index `i` in the update. */
  predicate Joins(l: Link, current: Flags, pads: Flags, i: int) {
    0 <= i < MAX_DEVICES && current[i] && !l.prev[i] && pads[i]
  }

  lemma {:induction false} NewPadIsFirst(l: Link, current: Flags, pads: Flags, from: nat)
    requires from <= MAX_DEVICES
    ensures match NewPad(l.prev, current, pads, from)
            case Some(i) => from <= i && Joins(l, current, pads, i) && forall j | from <= j < i :: !Joins(l, current, pads, j)
            case None => forall j | from <= j < MAX_DEVICES :: !Joins(l, current, pads, j)
    decreases MAX_DEVICES - from
  {
    if from < MAX_DEVICES {
      NewPadIsFirst(l, current, pads, from + 1);
    }
  }

  /**
   An update leaves no gamepad bound if and only if the bound one, if any, is gone and every
   gamepad that joins does so below it. Otherwise a bound gamepad that is still there is
   kept, and a missing or leaving one is replaced by the first that joins above it.
   */
  lemma NoneBoundIff(l: Link, current: Flags, pads: Flags)
    requires LinkInv(l)
    ensures var r := Updated(l, current, pads);
            && (r.gamepad.None? <==>
                  && (l.gamepad.Some? ==> !current[l.gamepad.value])
                  && forall i | Joins(l, current, pads, i) :: l.gamepad.Some? && i < l.gamepad.value)
            && (r.gamepad.Some? ==>
                  if l.gamepad.Some? && current[l.gamepad.value] then r.gamepad == l.gamepad
                  else
                    && Joins(l, current, pads, r.gamepad.value)
                    && forall i | Joins(l, current, pads, i) && i < r.gamepad.value :: l.gamepad.Some? && i < l.gamepad.value)
  {
    hide Updated, NewPad;
    UpdateEffect(l, current, pads);
    NewPadIsFirst(l, current, pads, 0);
    if l.gamepad.Some? {
      NewPadIsFirst(l, current, pads, l.gamepad.value + 1);
    }
  }

  // ----- Callbacks alternate -----

  /** Connects minus disconnects of one index. */
  function Balance(log: seq<Callback>, i: nat): int {
    if log == [] then 0
    else Balance(log[..|log| - 1], i) + match log[|log| - 1]
      case OnConnect(j) => if j == i then 1 else 0
      case OnDisconnect(j) => if j == i then -1 else 0
  }

  /** Every prefix has balance 0 or 1, so the callbacks of the index alternate and begin with a connect. */
  predicate Alternates(log: seq<Callback>, i: nat) {
    forall n | 0 <= n <= |log| :: 0 <= Balance(log[..n], i) <= 1
  }

  predicate LogInv(l: Link) {
    forall i | 0 <= i < MAX_DEVICES :: Alternates(l.log, i) && Balance(l.log, i) == if l.connected[i] then 1 else 0
  }

  lemma AppendAlternates(log: seq<Callback>, c: Callback, i: nat)
    requires Alternates(log, i) && 0 <= Balance(log + [c], i) <= 1
    ensures Alternates(log + [c], i)
  {
    var longer := log + [c];
    forall n | 0 <= n <= |longer| ensures 0 <= Balance(longer[..n], i) <= 1 {
      if n <= |log| {
        assert longer[..n] == log[..n];
      } else {
        assert longer[..n] == longer;
      }
    }
  }

  lemma BalanceAppend(log: seq<Callback>, c: Callback, i: nat)
    ensures Balance(log + [c], i) == Balance(log, i)
              + match c case OnConnect(j) => (if j == i then 1 else 0) case OnDisconnect(j) => (if j == i then -1 else 0)
  {
    assert (log + [c])[..|log|] == log;
  }

  lemma EdgeKeepsLog(l: Link, current: Flags, pads: Flags, i: nat)
    requires i < MAX_DEVICES && MidUpdate(l, current, i) && LogInv(l)
    ensures LogInv(EdgeStep(l, current, pads, i))
  {
    if current[i] != l.prev[i] {
      var c := if current[i] then OnConnect(i) else OnDisconnect(i);
      var next := EdgeStep(l, current, pads, i);
      assert next.log == l.log + [c] && next.connected == l.connected[i := current[i]];
      hide EdgeStep, Alternates, Balance;
      forall k | 0 <= k < MAX_DEVICES
        ensures Alternates(next.log, k) && Balance(next.log, k) == if next.connected[k] then 1 else 0
      {
        BalanceAppend(l.log, c, k);
        AppendAlternates(l.log, c, k);
      }
    }
  }

  lemma {:induction false} EdgesKeepLog(l: Link, current: Flags, pads: Flags, i: nat)
    requires MidUpdate(l, current, i) && LogInv(l)
    ensures LogInv(EdgesFrom(l, current, pads, i))
    decreases MAX_DEVICES - i
  {
    if i < MAX_DEVICES {
      EdgeKeepsMid(l, current, pads, i);
      EdgeKeepsLog(l, current, pads, i);
      hide EdgeStep, MidUpdate, LogInv;
      EdgesKeepLog(EdgeStep(l, current, pads, i), current, pads, i + 1);
    }
  }

  // ----- Runs -----

  datatype Event =
    | DeviceConnected(device: Device)
    | DeviceReady(device: Device)
    | DeviceReport(device: Device)
    | DeviceDisconnected(device: Device)
    | Update(pads: Flags)

  datatype System = System(table: Table, link: Link)

  /** A device is connected before anything else happens to it, and connected again only after it left. */
  predicate Legal(s: System, e: Event) {
    match e
    case DeviceConnected(d) => d !in s.table.index
    case DeviceReady(d) => d in s.table.index
    case DeviceReport(d) => d in s.table.index
    case DeviceDisconnected(d) => d in s.table.index
    case Update(_) => true
  }

  function Occupancy(seats: Seats): (r: Flags)
    ensures forall i | 0 <= i < MAX_DEVICES :: r[i] == seats[i].Occupied?
  {
    seq(MAX_DEVICES, i requires 0 <= i < MAX_DEVICES => seats[i].Occupied?)
  }

  function Step(s: System, e: Event): System
    requires Legal(s, e)
  {
    match e
    case DeviceConnected(d) => s.(table := Connected(s.table, d))
    case DeviceReady(d) => s.(table := Ready(s.table, d).0)
    case DeviceReport(d) => s.(table := Reported(s.table, d))
    case DeviceDisconnected(d) => s.(table := Disconnected(s.table, d))
    case Update(pads) => System(Polled(s.table), Updated(s.link, Occupancy(s.table.seats), pads))
  }

  /** An update leaves every seat to its device and no report waiting; a report changes nothing but its own mark. */
  lemma UpdateConsumesReports(s: System, pads: Flags)
    ensures var after := Step(s, Update(pads));
            && after.table.used == s.table.used && after.table.index == s.table.index
            && forall i | 0 <= i < MAX_DEVICES ::
                 after.table.seats[i] == if s.table.seats[i].Occupied? then Occupied(s.table.seats[i].device, false) else Free
  {
    hide Updated, Occupancy;
  }

  predicate SystemInv(s: System) {
    Inv(s.table) && LinkInv(s.link) && LogInv(s.link)
  }

  const IDLE := System(
    Table([Free, Free, Free, Free], 0, map[]),
    Link([false, false, false, false], [false, false, false, false], None, []))

  lemma IdleIsSound()
    ensures SystemInv(IDLE)
  {
    assert Count(IDLE.table.seats, 4) == Count(IDLE.table.seats, 3) == Count(IDLE.table.seats, 2) == Count(IDLE.table.seats, 1) == 0;
  }

  lemma StepKeepsInv(s: System, e: Event)
    requires SystemInv(s) && Legal(s, e)
    ensures SystemInv(Step(s, e))
    ensures e.Update? ==> Step(s, e).link.connected == Occupancy(Step(s, e).table.seats)
  {
    match e {
      case DeviceConnected(d) => ConnectedKeepsInv(s.table, d);
      case DeviceReady(d) => ReadyKeepsInv(s.table, d);
      case DeviceReport(d) => MarksKeepInv(s.table, Reported(s.table, d).seats);
      case DeviceDisconnected(d) => DisconnectedKeepsInv(s.table, d);
      case Update(pads) =>
        MarksKeepInv(s.table, PolledSeats(s.table.seats));
        UpdateEffect(s.link, Occupancy(s.table.seats), pads);
        EdgesKeepLog(s.link, Occupancy(s.table.seats), pads, 0);
        assert Occupancy(PolledSeats(s.table.seats)) == Occupancy(s.table.seats);
    }
    hide Inv, LogInv, EdgesFrom, Ready, Disconnected, Connected, Reported;
  }

  predicate IsRun(states: seq<System>, events: seq<Event>) {
    && |states| == |events| + 1 && states[0] == IDLE
    && forall i | 0 <= i < |events| :: Legal(states[i], events[i]) && states[i + 1] == Step(states[i], events[i])
  }

  /**
   Under any interleaving of device events and updates: seats are exclusive and counted,
   a bound gamepad is connected, and each index's callbacks alternate.
   */
  lemma {:induction false} RunKeepsInv(states: seq<System>, events: seq<Event>, i: nat)
    requires IsRun(states, events) && i <= |events|
    ensures SystemInv(states[i])
    decreases i
  {
    hide SystemInv, Step, Legal;
    if i == 0 {
      IdleIsSound();
    } else {
      RunKeepsInv(states, events, i - 1);
      StepKeepsInv(states[i - 1], events[i - 1]);
    }
  }
}
