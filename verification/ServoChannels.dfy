/**
 Output channels meet the LEDC allocator: each PWM output's servo object asks for a channel
 at 50 Hz when it is attached, and there are sixteen. A servo counts as attached on every
 capable pin, with or without a channel.
 */
module ServoChannels {
  import opened Wrappers
  import opened RcTypes
  import opened RcConfig
  import opened OutputPins
  import ConfigRoundTrip
  import Ledc = LedcAllocator

  const SERVO_HZ := 50.0

  predicate IsPwm(o: Output) {
    o.used && o.kind == Pwm
  }

  /** The used PWM outputs among the first `n`, in the order they are set up. */
  function PwmOutputs(outs: Outputs, n: nat): (r: seq<nat>)
    requires n <= MAX_OUTPUT_CHANNELS
    ensures |r| <= n && forall p | 0 <= p < |r| :: r[p] < n
  {
    if n == 0 then [] else if IsPwm(outs[n - 1]) then PwmOutputs(outs, n - 1) + [n - 1] else PwmOutputs(outs, n - 1)
  }

  lemma {:induction false} PwmOutputsAre(outs: Outputs, n: nat)
    requires n <= MAX_OUTPUT_CHANNELS
    ensures forall i: nat :: i in PwmOutputs(outs, n) <==> i < n && IsPwm(outs[i])
    decreases n
  {
    hide IsPwm;
    if n > 0 {
      PwmOutputsAre(outs, n - 1);
    }
  }

  lemma {:induction false} PwmOutputsIncrease(outs: Outputs, n: nat)
    requires n <= MAX_OUTPUT_CHANNELS
    ensures forall p, q | 0 <= p < q < |PwmOutputs(outs, n)| :: PwmOutputs(outs, n)[p] < PwmOutputs(outs, n)[q]
    decreases n
  {
    hide IsPwm;
    if n > 0 {
      PwmOutputsIncrease(outs, n - 1);
    }
  }

  // ----- Setting up servos one after another -----

  /** How many channels have an owner. */
  function Total(s: Ledc.State): int {
    s.count[0] + s.count[1] + s.count[2] + s.count[3]
  }

  /** Every timer is idle or runs at the frequency. */
  predicate AllAt(s: Ledc.State, freq: int) {
    forall t | 0 <= t < Ledc.NUM_TIMERS :: s.freqSet[t] == freq || s.freqSet[t] == -1
  }

  lemma CountsAreBounded(s: Ledc.State)
    requires Ledc.Inv(s)
    ensures forall t | 0 <= t < Ledc.NUM_TIMERS :: 0 <= s.count[t] <= Ledc.PER_TIMER
  {
    forall t | 0 <= t < Ledc.NUM_TIMERS
      ensures 0 <= s.count[t] <= Ledc.PER_TIMER
    {
      assert Ledc.TimerAgrees(s, t);
    }
    hide Ledc.Inv;
  }

  lemma RoomIff(s: Ledc.State, freq: int)
    requires Ledc.Inv(s) && AllAt(s, freq)
    ensures Ledc.FirstTimer(s, freq, 0).Some? <==> Total(s) < Ledc.NUM_PWM
  {
    CountsAreBounded(s);
    hide Ledc.Inv;
    assert Ledc.Accepts(s, 0, freq) <==> s.count[0] < Ledc.PER_TIMER;
    assert Ledc.Accepts(s, 1, freq) <==> s.count[1] < Ledc.PER_TIMER;
    assert Ledc.Accepts(s, 2, freq) <==> s.count[2] < Ledc.PER_TIMER;
    assert Ledc.Accepts(s, 3, freq) <==> s.count[3] < Ledc.PER_TIMER;
    hide Ledc.Accepts, AllAt;
  }

  lemma TakeAddsOne(s: Ledc.State, id: Ledc.Id, timer: nat, channel: nat, freq: real)
    requires timer < Ledc.NUM_TIMERS && channel < Ledc.NUM_PWM && AllAt(s, Ledc.Trunc(freq))
    ensures var r := Ledc.Take(s, id, timer, channel, freq);
            && Total(r) == Total(s) + 1 && AllAt(r, Ledc.Trunc(freq))
            && id in r.objs && r.objs[id].channel == channel
            && r.objs.Keys == s.objs.Keys + {id}
            && forall o | o in s.objs && o != id :: r.objs[o] == s.objs[o]
  {
    hide Ledc.Trunc;
  }

  /** Setting up an unallocated servo gives it a channel exactly when one of the sixteen is free, and takes none from another. */
  lemma SetupOne(s: Ledc.State, id: Ledc.Id, freq: real)
    requires Ledc.Inv(s) && AllAt(s, Ledc.Trunc(freq)) && Ledc.Trunc(freq) != -1
    requires id in s.objs && s.objs[id].channel < 0
    ensures var r := Ledc.Check(s, id, freq);
            && Ledc.Inv(r) && AllAt(r, Ledc.Trunc(freq)) && r.objs.Keys == s.objs.Keys
            && (r.objs[id].channel >= 0 <==> Total(s) < Ledc.NUM_PWM)
            && Total(r) == Total(s) + (if Total(s) < Ledc.NUM_PWM then 1 else 0)
            && forall o | o in s.objs && o != id :: r.objs[o].channel == s.objs[o].channel
  {
    var a := Ledc.Allocate(s, id, freq);
    Ledc.CheckKeepsInvIff(s, id, freq);
    Ledc.AllocateFreq(s, id, freq);
    Ledc.UnallocatedIsMinusOne(s, id);
    RoomIff(s, Ledc.Trunc(freq));
    match Ledc.FirstTimer(s, Ledc.Trunc(freq), 0) {
      case None =>
        assert a == s;
      case Some(t) =>
        assert Ledc.TimerAgrees(s, t);
        Ledc.TimerHasRoom(s, t, Ledc.Trunc(freq));
        TakeAddsOne(s, id, t, Ledc.ChannelAt(t, Ledc.FirstFree(s, t)), freq);
    }
    hide Ledc.Inv, Ledc.Allocate, Ledc.Trunc, Ledc.RetuneUpTo, Ledc.LooksAt, Ledc.FirstTimer, Ledc.TimerAgrees;
    var o := a.objs[id];
    if 0 <= o.timer <= 3 {
      Ledc.RetuneEffect(a, o.timer, o.channel, freq, Ledc.LooksAt(a, o.timer));
    }
  }

  /** Servos that exist, are distinct, and have no channel. */
  predicate AllFresh(s: Ledc.State, ids: seq<Ledc.Id>) {
    && (forall p | 0 <= p < |ids| :: ids[p] in s.objs && s.objs[ids[p]].channel < 0)
    && (forall p, q | 0 <= p < q < |ids| :: ids[p] != ids[q])
  }

  /** `r` is the outcome of setting up the servos in turn. */
  ghost predicate SetUp(s: Ledc.State, ids: seq<Ledc.Id>, freq: real, r: Ledc.State)
    decreases |ids|
  {
    if ids == [] then r == s
    else
      exists mid :: SetUp(s, ids[..|ids| - 1], freq, mid)
                    && Ledc.Inv(mid) && ids[|ids| - 1] in mid.objs && r == Ledc.Check(mid, ids[|ids| - 1], freq)
  }

  /** How many of `n` servos, after `taken` channels are gone, get one. */
  function Served(taken: int, n: nat): int {
    if taken + n <= Ledc.NUM_PWM then taken + n else Ledc.NUM_PWM
  }

  /** Servos set up in turn at one frequency get a channel each, first come first served, until all sixteen are taken. */
  lemma {:induction false} SetUpServesFirst(s: Ledc.State, ids: seq<Ledc.Id>, freq: real, r: Ledc.State)
    requires Ledc.Inv(s) && AllAt(s, Ledc.Trunc(freq)) && Ledc.Trunc(freq) != -1 && Total(s) <= Ledc.NUM_PWM
    requires AllFresh(s, ids) && SetUp(s, ids, freq, r)
    ensures Ledc.Inv(r) && AllAt(r, Ledc.Trunc(freq)) && r.objs.Keys == s.objs.Keys
    ensures Total(r) == Served(Total(s), |ids|)
    ensures forall p | 0 <= p < |ids| :: r.objs[ids[p]].channel >= 0 <==> Total(s) + p < Ledc.NUM_PWM
    ensures forall o | o in s.objs && o !in ids :: r.objs[o].channel == s.objs[o].channel
    decreases |ids|
  {
    hide Ledc.Inv, Ledc.Check, AllAt, Total, Ledc.Trunc, AllFresh;
    if ids != [] {
      var n := |ids| - 1;
      var first, last := ids[..n], ids[n];
      var mid :| SetUp(s, first, freq, mid) && Ledc.Inv(mid) && last in mid.objs && r == Ledc.Check(mid, last, freq);
      hide SetUp;
      FreshPrefix(s, ids);
      SetUpServesFirst(s, first, freq, mid);
      SetUpOneMore(s, first, last, freq, mid);
    }
  }

  lemma FreshPrefix(s: Ledc.State, ids: seq<Ledc.Id>)
    requires AllFresh(s, ids) && ids != []
    ensures var first, last := ids[..|ids| - 1], ids[|ids| - 1];
            && AllFresh(s, first) && last !in first && last in s.objs && s.objs[last].channel < 0 && ids == first + [last]
            && forall p | 0 <= p < |first| :: first[p] in s.objs
  {
    hide Ledc.Inv;
  }

  lemma SetUpOneMore(s: Ledc.State, first: seq<Ledc.Id>, last: Ledc.Id, freq: real, mid: Ledc.State)
    requires Ledc.Inv(mid) && AllAt(mid, Ledc.Trunc(freq)) && Ledc.Trunc(freq) != -1 && mid.objs.Keys == s.objs.Keys
    requires Total(mid) == Served(Total(s), |first|) && Total(s) <= Ledc.NUM_PWM
    requires last in mid.objs && mid.objs[last].channel < 0 && last !in first
    requires forall p | 0 <= p < |first| :: first[p] in s.objs && (mid.objs[first[p]].channel >= 0 <==> Total(s) + p < Ledc.NUM_PWM)
    requires forall o | o in s.objs && o !in first :: mid.objs[o].channel == s.objs[o].channel
    ensures var r, ids := Ledc.Check(mid, last, freq), first + [last];
            && Ledc.Inv(r) && AllAt(r, Ledc.Trunc(freq)) && r.objs.Keys == s.objs.Keys
            && Total(r) == Served(Total(s), |ids|)
            && (forall p | 0 <= p < |ids| :: ids[p] in r.objs && (r.objs[ids[p]].channel >= 0 <==> Total(s) + p < Ledc.NUM_PWM))
            && (forall o | o in s.objs && o !in ids :: r.objs[o].channel == s.objs[o].channel)
  {
    hide Ledc.Inv, Ledc.Check, AllAt, Total, Ledc.Trunc;
    SetupOne(mid, last, freq);
  }

  lemma {:induction false} SetUpHappens(s: Ledc.State, ids: seq<Ledc.Id>, freq: real) returns (r: Ledc.State)
    requires Ledc.Inv(s) && AllAt(s, Ledc.Trunc(freq)) && Ledc.Trunc(freq) != -1 && Total(s) <= Ledc.NUM_PWM
    requires AllFresh(s, ids)
    ensures SetUp(s, ids, freq, r)
    decreases |ids|
  {
    hide Ledc.Inv, Ledc.Check, AllAt, Total, Ledc.Trunc;
    if ids == [] {
      r := s;
    } else {
      var n := |ids| - 1;
      var mid := SetUpHappens(s, ids[..n], freq);
      SetUpServesFirst(s, ids[..n], freq, mid);
      r := Ledc.Check(mid, ids[n], freq);
    }
  }

  // ----- The servos of a configuration -----

  /** No channel has an owner, and each output's servo exists and has none. */
  predicate AllReleased(s: Ledc.State) {
    && Ledc.Inv(s) && Total(s) == 0
    && forall i: nat | i < MAX_OUTPUT_CHANNELS :: i in s.objs && s.objs[i].channel < 0
  }

  lemma ReleasedIsIdle(s: Ledc.State)
    requires AllReleased(s)
    ensures AllAt(s, Ledc.Trunc(SERVO_HZ)) && Ledc.Trunc(SERVO_HZ) == 50
  {
    CountsAreBounded(s);
    forall t | 0 <= t < Ledc.NUM_TIMERS
      ensures s.freqSet[t] == -1
    {
      assert t == 0 || t == 1 || t == 2 || t == 3;
      assert Ledc.TimerAgrees(s, t);
    }
    hide Ledc.Inv;
  }

  lemma ReleasedIsFresh(outs: Outputs, s: Ledc.State)
    requires AllReleased(s)
    ensures AllFresh(s, PwmOutputs(outs, MAX_OUTPUT_CHANNELS))
  {
    PwmOutputsIncrease(outs, MAX_OUTPUT_CHANNELS);
    hide PwmOutputs, Ledc.Inv, Total;
  }

  lemma ReleasedHasRoom(s: Ledc.State)
    requires AllReleased(s)
    ensures Ledc.Inv(s) && Total(s) == 0
    ensures forall i: nat | i < MAX_OUTPUT_CHANNELS :: i in s.objs
  {
    hide Ledc.Inv;
  }

  /** The output's servo has an LEDC channel. */
  predicate HasChannel(r: Ledc.State, i: nat) {
    i in r.objs && r.objs[i].channel >= 0
  }

  /**
   When the servos of an output table are set up from a released allocator, the first
   sixteen PWM outputs get a channel each and no other does: every one of them has a
   channel if and only if there are at most sixteen.
   */
  lemma ServosServedIff(outs: Outputs, s: Ledc.State, r: Ledc.State)
    requires AllReleased(s) && SetUp(s, PwmOutputs(outs, MAX_OUTPUT_CHANNELS), SERVO_HZ, r)
    ensures var ids := PwmOutputs(outs, MAX_OUTPUT_CHANNELS);
            && Ledc.Inv(r)
            && (forall p | 0 <= p < |ids| :: HasChannel(r, ids[p]) <==> p < Ledc.NUM_PWM)
            && ((forall i: nat | i < MAX_OUTPUT_CHANNELS && IsPwm(outs[i]) :: HasChannel(r, i)) <==> |ids| <= Ledc.NUM_PWM)
  {
    var ids := PwmOutputs(outs, MAX_OUTPUT_CHANNELS);
    ReleasedIsIdle(s);
    ReleasedIsFresh(outs, s);
    ReleasedHasRoom(s);
    PwmOutputsAre(outs, MAX_OUTPUT_CHANNELS);
    hide AllReleased, Ledc.Inv, SetUp, AllAt, AllFresh, Total, Ledc.Trunc, PwmOutputs, IsPwm;
    SetUpServesFirst(s, ids, SERVO_HZ, r);
    forall p | 0 <= p < |ids|
      ensures ids[p] in r.objs && (HasChannel(r, ids[p]) <==> p < Ledc.NUM_PWM)
    {}
    hide HasChannel;
    ServedIff(outs, ids, r);
  }

  lemma ServedIff(outs: Outputs, ids: seq<nat>, r: Ledc.State)
    requires forall i: nat :: i in ids <==> i < MAX_OUTPUT_CHANNELS && IsPwm(outs[i])
    requires forall p | 0 <= p < |ids| :: HasChannel(r, ids[p]) <==> p < Ledc.NUM_PWM
    ensures (forall i: nat | i < MAX_OUTPUT_CHANNELS && IsPwm(outs[i]) :: HasChannel(r, i)) <==> |ids| <= Ledc.NUM_PWM
  {
    hide IsPwm, HasChannel;
    if |ids| > Ledc.NUM_PWM {
      assert ids[Ledc.NUM_PWM] in ids && !HasChannel(r, ids[Ledc.NUM_PWM]);
    }
  }

  /** Seventeen servos on pins 0 to 16. */
  function SeventeenServos(): (r: Outputs)
    ensures forall i | 0 <= i < MAX_OUTPUT_CHANNELS :: r[i] == if i < 17 then HELD.(pin := i) else DEFAULT_OUTPUT
  {
    seq(MAX_OUTPUT_CHANNELS, i requires 0 <= i < MAX_OUTPUT_CHANNELS => if i < 17 then HELD.(pin := i) else DEFAULT_OUTPUT)
  }

  lemma {:induction false} SeventeenIds(n: nat)
    requires n <= MAX_OUTPUT_CHANNELS
    ensures var ids := PwmOutputs(SeventeenServos(), n);
            |ids| == (if n <= 17 then n else 17) && forall p | 0 <= p < |ids| :: ids[p] == p
    decreases n
  {
    hide SeventeenServos;
    if n > 0 {
      SeventeenIds(n - 1);
    }
  }

  lemma SeventeenAreSettled(b: Board)
    requires forall p | 0 <= p < 17 :: b.hasPwm(p) && b.attaches(p)
    ensures ConfigRoundTrip.SettledOutputs(b, SeventeenServos())
    ensures forall i | 0 <= i < MAX_OUTPUT_CHANNELS :: SeventeenServos()[i].used ==> SeventeenServos()[i].failsafe == Min
  {
    hide SeventeenServos;
  }

  /** A configuration that is accepted, with every output driven on its pin, and whose seventeenth servo has no channel. */
  lemma AcceptedServoCanLackChannel(b: Board, s: Ledc.State)
    requires AllReleased(s) && forall p | 0 <= p < 17 :: b.hasPwm(p) && b.attaches(p)
    ensures Apply(b, Export(BlankInputs(), SeventeenServos())) == Applied(SeventeenServos())
    ensures exists r :: SetUp(s, PwmOutputs(SeventeenServos(), MAX_OUTPUT_CHANNELS), SERVO_HZ, r) && !HasChannel(r, 16)
  {
    var outs := SeventeenServos();
    SeventeenAreSettled(b);
    ReleasedIsIdle(s);
    ReleasedIsFresh(outs, s);
    ReleasedHasRoom(s);
    SeventeenIds(MAX_OUTPUT_CHANNELS);
    hide ConfigRoundTrip.SettledOutputs, AllReleased, Ledc.Inv, SetUp, AllAt, AllFresh, Total, Ledc.Trunc;
    hide PwmOutputs, IsPwm, HasChannel, Apply, Export, SeventeenServos;
    ConfigRoundTrip.OneTripIsIdentityIff(b, BlankInputs(), outs);
    var ids := PwmOutputs(outs, MAX_OUTPUT_CHANNELS);
    var r := SetUpHappens(s, ids, SERVO_HZ);
    ServosServedIff(outs, s, r);
    assert ids[16] == 16 && !HasChannel(r, ids[16]);
  }
}
