/**
 The outgoing report queue: the ring of components/bluepad32/uni_circular_buffer.c and the
 send and re-send code of components/bluepad32/uni_hid_device.c.
 */
module ReportRing {
  import opened RcTypes

  const SIZE := 32
  const DATA_SIZE := 128

  type int16 = x: int | -0x8000 <= x < 0x8000

  type uint16 = x: int | 0 <= x < 0x1_0000

  /** A stored packet; the data length is the length of `data`. */
  datatype Slot = Slot(cid: int16, data: seq<uint8>)

  datatype RingError = Ok | BufferFull | BufferEmpty | TooBig

  class Ring {
    const slots: array<Slot>
    var head: nat
    var tail: nat

    ghost predicate Valid()
      reads this
    {
      slots.Length == SIZE && head < SIZE && tail < SIZE
    }

    /** The queued packets, oldest first. */
    ghost function Contents(): (s: seq<Slot>)
      reads this, slots
      requires Valid()
      ensures |s| < SIZE
    {
      if head <= tail then slots[head..tail] else slots[head..] + slots[..tail]
    }

    constructor ()
      ensures Valid() && fresh(slots) && Contents() == []
    {
      slots := new Slot[SIZE](_ => Slot(0, []));
      head := 0;
      tail := 0;
    }

    method IsEmpty() returns (r: bool)
      requires Valid()
      ensures r <==> Contents() == []
    {
      return head == tail;
    }

    method IsFull() returns (r: bool)
      requires Valid()
      ensures r <==> |Contents()| == SIZE - 1
    {
      return tail + 1 == head || (head == 0 && tail == SIZE - 1);
    }

    /** Only the slot at the old tail is written. */
    method Put(cid: int16, data: seq<uint8>) returns (r: RingError)
      requires Valid()
      modifies this, slots
      ensures Valid() && head == old(head)
      ensures r == if |old(Contents())| == SIZE - 1 then BufferFull else if |data| >= DATA_SIZE then TooBig else Ok
      ensures Contents() == if r == Ok then old(Contents()) + [Slot(cid, data)] else old(Contents())
      ensures forall i | 0 <= i < SIZE && i != old(tail) :: slots[i] == old(slots[i])
    {
      var full := IsFull();
      if full {
        return BufferFull;
      }
      if |data| >= DATA_SIZE {
        return TooBig;
      }
      slots[tail] := Slot(cid, data);
      tail := tail + 1;
      if tail == SIZE {
        tail := 0;
      }
      return Ok;
    }

    /** The result names the slot, as the pointer the C code hands out does; the slot is not cleared. */
    method Get() returns (r: RingError, slot: nat)
      requires Valid()
      modifies this
      ensures Valid() && tail == old(tail) && slot < SIZE
      ensures r == if old(Contents()) == [] then BufferEmpty else Ok
      ensures r == Ok ==> slot == old(head) && slots[slot] == old(Contents())[0] && Contents() == old(Contents())[1..]
      ensures r != Ok ==> Contents() == old(Contents())
    {
      var empty := IsEmpty();
      if empty {
        return BufferEmpty, 0;
      }
      slot := head;
      head := head + 1;
      if head == SIZE {
        head := 0;
      }
      return Ok, slot;
    }

    method Reset()
      requires Valid()
      modifies this
      ensures Valid() && Contents() == []
    {
      head := 0;
      tail := 0;
    }
  }

  // ----- Sending -----

  /** A report as the caller hands it over: the channel id is unsigned there and signed in the ring. */
  datatype Message = Message(cid: uint16, data: seq<uint8>)

  function ToInt16(x: uint16): int16 {
    if x < 0x8000 then x else x - 0x1_0000
  }

  function ToUint16(x: int16): uint16 {
    if x < 0 then x + 0x1_0000 else x
  }

  function AsSlot(m: Message): Slot {
    Slot(ToInt16(m.cid), m.data)
  }

  function AsMessage(s: Slot): Message {
    Message(ToUint16(s.cid), s.data)
  }

  /** The channel id survives the trip through the signed field. */
  lemma SlotRoundTrip(m: Message, s: Slot)
    ensures AsMessage(AsSlot(m)) == m && AsSlot(AsMessage(s)) == s
  {}

  function Messages(slots: seq<Slot>): (r: seq<Message>)
    ensures |r| == |slots| && forall i | 0 <= i < |r| :: r[i] == AsMessage(slots[i])
  {
    seq(|slots|, i requires 0 <= i < |slots| => AsMessage(slots[i]))
  }

  lemma MessagesTail(slots: seq<Slot>)
    requires slots != []
    ensures Messages(slots[1..]) == Messages(slots)[1..] && Messages(slots)[0] == AsMessage(slots[0])
  {
    hide AsMessage;
  }

  predicate Sendable(m: Message) {
    m.cid != 0 && m.data != []
  }

  /** The packets waiting and the packets handed to the radio, in order. */
  datatype Device = Device(queue: seq<Message>, sent: seq<Message>)

  predicate Queueable(d: Device, m: Message) {
    |d.queue| < SIZE - 1 && |m.data| < DATA_SIZE
  }

  /** uni_hid_device_send_report, when the radio answers `accepts`. */
  function SendStep(d: Device, m: Message, accepts: bool): Device {
    if !Sendable(m) then d
    else if accepts then d.(sent := d.sent + [m])
    else if Queueable(d, m) then d.(queue := d.queue + [m])
    else d
  }

  /** uni_hid_device_send_queued_reports */
  function DrainStep(d: Device, accepts: bool): Device {
    if d.queue == [] then d else SendStep(d.(queue := d.queue[1..]), d.queue[0], accepts)
  }

  class HidDevice {
    const outgoing: Ring
    const accepts: nat -> bool
    var attempts: nat
    ghost var sent: seq<Message>

    ghost predicate Valid()
      reads this, outgoing
    {
      outgoing.Valid()
    }

    ghost function State(): Device
      reads this, outgoing, outgoing.slots
      requires Valid()
    {
      Device(Messages(outgoing.Contents()), sent)
    }

    constructor (accepts: nat -> bool)
      ensures Valid() && fresh(outgoing) && fresh(outgoing.slots) && State() == Device([], [])
      ensures this.accepts == accepts && attempts == 0
    {
      outgoing := new Ring();
      this.accepts := accepts;
      attempts := 0;
      sent := [];
    }

    /** `l2cap_send` */
    method Transmit(m: Message) returns (ok: bool)
      modifies this
      ensures ok == accepts(old(attempts)) && attempts == old(attempts) + 1
      ensures sent == if ok then old(sent) + [m] else old(sent)
    {
      ok := accepts(attempts);
      attempts := attempts + 1;
      if ok {
        sent := sent + [m];
      }
    }

    /** Sends now or queues; queueing writes no slot but the one at the tail. */
    method SendReport(cid: uint16, report: seq<uint8>)
      requires Valid()
      modifies this, outgoing, outgoing.slots
      ensures Valid()
      ensures State() == SendStep(old(State()), Message(cid, report), accepts(old(attempts)))
      ensures attempts == old(attempts) + if cid == 0 || report == [] then 0 else 1
      ensures forall i | 0 <= i < SIZE && i != old(outgoing.tail) :: outgoing.slots[i] == old(outgoing.slots[i])
    {
      if cid == 0 {
        return;
      }
      if report == [] {
        return;
      }
      var ok := Transmit(Message(cid, report));
      if !ok {
        SlotRoundTrip(Message(cid, report), Slot(0, []));
        var r := outgoing.Put(ToInt16(cid), report);
      }
    }

    /** The packet is read from the slot just freed; a failed send copies it to another slot. */
    method SendQueuedReports()
      requires Valid()
      modifies this, outgoing, outgoing.slots
      ensures Valid()
      ensures State() == DrainStep(old(State()), accepts(old(attempts)))
      ensures old(outgoing.Contents()) != [] ==> outgoing.slots[old(outgoing.head)] == old(outgoing.slots[outgoing.head])
    {
      hide SendStep, ToUint16;
      ghost var before := outgoing.Contents();
      ghost var freed := outgoing.head;
      var empty := outgoing.IsEmpty();
      if empty {
        return;
      }
      var r, slot := outgoing.Get();
      if r != Ok {
        return;
      }
      MessagesTail(before);
      assert State() == Device(Messages(before)[1..], old(State()).sent);
      assert Message(ToUint16(outgoing.slots[slot].cid), outgoing.slots[slot].data) == Messages(before)[0];
      assert slot == freed && freed != outgoing.tail;
      hide AsMessage, Messages, Ring.Contents;
      SendReport(ToUint16(outgoing.slots[slot].cid), outgoing.slots[slot].data);
    }
  }

  // ----- Runs -----

  /** A packet handed over by a report writer, or a can-send-now event, with the radio's answer. */
  datatype Event = Send(m: Message, sendAccepts: bool) | Drain(drainAccepts: bool)

  function Step(d: Device, e: Event): Device {
    match e
    case Send(m, accepts) => SendStep(d, m, accepts)
    case Drain(accepts) => DrainStep(d, accepts)
  }

  /** The packet was taken on: sent at once or queued. */
  function Taken(d: Device, e: Event): multiset<Message> {
    match e
    case Send(m, accepts) => if Sendable(m) && (accepts || Queueable(d, m)) then multiset{m} else multiset{}
    case Drain(_) => multiset{}
  }

  function Run(d: Device, events: seq<Event>): Device
    decreases |events|
  {
    if events == [] then d else Run(Step(d, events[0]), events[1..])
  }

  function AllTaken(d: Device, events: seq<Event>): multiset<Message>
    decreases |events|
  {
    if events == [] then multiset{} else Taken(d, events[0]) + AllTaken(Step(d, events[0]), events[1..])
  }

  /** Every waiting packet could be queued again. */
  predicate Sound(d: Device) {
    |d.queue| < SIZE && forall i | 0 <= i < |d.queue| :: Sendable(d.queue[i]) && |d.queue[i].data| < DATA_SIZE
  }

  function Everything(d: Device): multiset<Message> {
    multiset(d.queue) + multiset(d.sent)
  }

  /** A can-send-now event sends the oldest packet or moves it to the back of the queue: the requeue never fails. */
  lemma DrainNeverLoses(d: Device, accepts: bool)
    requires Sound(d) && d.queue != []
    ensures DrainStep(d, accepts) ==
              if accepts then Device(d.queue[1..], d.sent + [d.queue[0]])
              else Device(d.queue[1..] + [d.queue[0]], d.sent)
  {
    assert Sendable(d.queue[0]);
  }

  lemma SendConserves(d: Device, m: Message, accepts: bool)
    requires Sound(d)
    ensures Sound(SendStep(d, m, accepts))
    ensures Everything(SendStep(d, m, accepts)) == Everything(d) + Taken(d, Send(m, accepts))
  {
    hide Sendable;
    assert multiset(d.queue + [m]) == multiset(d.queue) + multiset{m};
    assert multiset(d.sent + [m]) == multiset(d.sent) + multiset{m};
  }

  lemma DrainConserves(d: Device, accepts: bool)
    requires Sound(d)
    ensures Sound(DrainStep(d, accepts))
    ensures Everything(DrainStep(d, accepts)) == Everything(d)
  {
    if d.queue != [] {
      DrainNeverLoses(d, accepts);
      hide DrainStep, Sendable;
      var m, rest := d.queue[0], d.queue[1..];
      assert d.queue == [m] + rest;
      assert multiset(d.queue) == multiset{m} + multiset(rest);
      assert multiset(rest + [m]) == multiset(rest) + multiset{m};
      assert multiset(d.sent + [m]) == multiset(d.sent) + multiset{m};
    }
  }

  lemma StepConserves(d: Device, e: Event)
    requires Sound(d)
    ensures Sound(Step(d, e))
    ensures Everything(Step(d, e)) == Everything(d) + Taken(d, e)
  {
    match e {
      case Send(m, accepts) => SendConserves(d, m, accepts);
      case Drain(accepts) => DrainConserves(d, accepts);
    }
    hide SendStep, DrainStep, Sound, Everything;
  }

  /** Over any run, the packets waiting and sent are exactly those that were taken on: none is lost or doubled. */
  lemma {:induction false} RunConserves(d: Device, events: seq<Event>)
    requires Sound(d)
    ensures Sound(Run(d, events))
    ensures Everything(Run(d, events)) == Everything(d) + AllTaken(d, events)
    decreases |events|
  {
    hide Step, Taken, Everything, Sound;
    if events != [] {
      StepConserves(d, events[0]);
      RunConserves(Step(d, events[0]), events[1..]);
    }
  }

  function Drains(n: nat): (r: seq<Event>)
    ensures |r| == n
  {
    if n == 0 then [] else [Drain(true)] + Drains(n - 1)
  }

  /** As long as the radio accepts, the waiting packets leave in the order they were queued. */
  lemma {:induction false} AcceptedDrainsAreFifo(d: Device, n: nat)
    requires Sound(d) && n <= |d.queue|
    ensures Run(d, Drains(n)) == Device(d.queue[n..], d.sent + d.queue[..n])
    decreases n
  {
    if n == 0 {
      assert d.sent + d.queue[..0] == d.sent;
    } else {
      DrainNeverLoses(d, true);
      StepConserves(d, Drain(true));
      var next := Step(d, Drain(true));
      assert Drains(n)[1..] == Drains(n - 1);
      AcceptedDrainsAreFifo(next, n - 1);
      assert next.sent + next.queue[..n - 1] == d.sent + d.queue[..n];
    }
  }

  // ----- When the order is kept -----

  /** The packets sent and then those waiting: the order the peer will have seen them in. */
  function Line(d: Device): seq<Message> {
    d.sent + d.queue
  }

  /** The packet an event takes on, as a sequence. */
  function TakenOn(d: Device, e: Event): (r: seq<Message>)
    ensures multiset(r) == Taken(d, e)
  {
    match e
    case Send(m, accepts) => if Sendable(m) && (accepts || Queueable(d, m)) then [m] else []
    case Drain(_) => []
  }

  predicate AllSame(q: seq<Message>, m: Message) {
    forall i | 0 <= i < |q| :: q[i] == m
  }

  /**
   The event moves no packet past a different one: nothing else may be waiting when a
   packet is sent at once, nor behind a packet whose re-send is refused.
   */
  predicate KeepsOrder(d: Device, e: Event) {
    match e
    case Send(m, accepts) => Sendable(m) && accepts ==> AllSame(d.queue, m)
    case Drain(accepts) => !accepts && d.queue != [] ==> AllSame(d.queue, d.queue[0])
  }

  lemma {:induction false} RotationIsSame(q: seq<Message>, m: Message)
    ensures [m] + q == q + [m] <==> AllSame(q, m)
    decreases |q|
  {
    var a, b := [m] + q, q + [m];
    if q != [] {
      assert a[1..] == q && b == [q[0]] + (q[1..] + [m]) && q == [q[0]] + q[1..];
      RotationIsSame(q[1..], m);
      if a == b {
        assert a[0] == b[0] && a[1..] == b[1..];
      }
    }
  }

  lemma SendOrder(d: Device, m: Message, accepts: bool)
    ensures Line(SendStep(d, m, accepts)) == Line(d) + TakenOn(d, Send(m, accepts)) <==> KeepsOrder(d, Send(m, accepts))
  {
    hide Sendable, AllSame;
    if accepts {
      RotationIsSame(d.queue, m);
      var now, want := (d.sent + [m]) + d.queue, (d.sent + d.queue) + [m];
      assert now[|d.sent|..] == [m] + d.queue && want[|d.sent|..] == d.queue + [m];
      assert now == d.sent + ([m] + d.queue) && want == d.sent + (d.queue + [m]);
    } else {
      assert d.sent + (d.queue + [m]) == (d.sent + d.queue) + [m];
    }
  }

  lemma DrainOrder(d: Device, accepts: bool)
    requires Sound(d)
    ensures Line(DrainStep(d, accepts)) == Line(d) + TakenOn(d, Drain(accepts)) <==> KeepsOrder(d, Drain(accepts))
  {
    if d.queue != [] {
      DrainNeverLoses(d, accepts);
      var m, rest := d.queue[0], d.queue[1..];
      hide DrainStep, Sendable, Sound;
      assert d.queue == [m] + rest;
      RotationIsSame(rest, m);
      assert AllSame(d.queue, m) <==> AllSame(rest, m);
      var now, want := d.sent + (rest + [m]), d.sent + ([m] + rest);
      assert now[|d.sent|..] == rest + [m] && want[|d.sent|..] == [m] + rest;
      assert (d.sent + [m]) + rest == want;
    }
  }

  /** One event leaves the packets in the order they were taken on if and only if it moves none past a different one. */
  lemma StepKeepsOrderIff(d: Device, e: Event)
    requires Sound(d)
    ensures Line(Step(d, e)) == Line(d) + TakenOn(d, e) <==> KeepsOrder(d, e)
  {
    match e {
      case Send(m, accepts) => SendOrder(d, m, accepts);
      case Drain(accepts) => DrainOrder(d, accepts);
    }
  }

  /** Before each event and at the end, the line is what had been taken on so far, in order. */
  predicate AlwaysInOrder(d: Device, events: seq<Event>, taken: seq<Message>)
    decreases |events|
  {
    && Line(d) == taken
    && (events == [] || AlwaysInOrder(Step(d, events[0]), events[1..], taken + TakenOn(d, events[0])))
  }

  predicate NeverReorders(d: Device, events: seq<Event>)
    decreases |events|
  {
    events == [] || (KeepsOrder(d, events[0]) && NeverReorders(Step(d, events[0]), events[1..]))
  }

  /**
   Over any run, reports are sent and waiting in the order they were taken on, at every
   moment, if and only if no event moves one past a different one.
   */
  lemma {:induction false} RunInOrderIff(d: Device, events: seq<Event>)
    requires Sound(d)
    ensures AlwaysInOrder(d, events, Line(d)) <==> NeverReorders(d, events)
    decreases |events|
  {
    if events != [] {
      StepKeepsOrderIff(d, events[0]);
      StepConserves(d, events[0]);
      RunInOrderIff(Step(d, events[0]), events[1..]);
      hide Step, TakenOn, KeepsOrder, Sound;
    }
  }

  /** A refused re-send puts the oldest report behind a younger one, and a direct send overtakes those waiting. */
  lemma ReportsCanBeOvertaken()
    ensures var a, b := Message(1, [1]), Message(1, [2]);
            && Run(Device([], []), [Send(a, false), Send(b, false), Drain(false), Drain(true), Drain(true)]).sent == [b, a]
            && Run(Device([], []), [Send(a, false), Send(b, true), Drain(true)]).sent == [b, a]
  {
    var a, b := Message(1, [1]), Message(1, [2]);
    RunPair(Device([], []), Send(a, false), [Send(b, false), Drain(false), Drain(true), Drain(true)]);
    RunPair(Device([a], []), Send(b, false), [Drain(false), Drain(true), Drain(true)]);
    RunPair(Device([a, b], []), Drain(false), [Drain(true), Drain(true)]);
    RunPair(Device([b, a], []), Drain(true), [Drain(true)]);
    RunPair(Device([a], [b]), Drain(true), []);
    RunPair(Device([], []), Send(a, false), [Send(b, true), Drain(true)]);
    RunPair(Device([a], []), Send(b, true), [Drain(true)]);
  }

  lemma RunPair(d: Device, e: Event, rest: seq<Event>)
    ensures Run(d, [e] + rest) == Run(Step(d, e), rest)
  {
    assert ([e] + rest)[1..] == rest;
  }
}
