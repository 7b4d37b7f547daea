/**
 The LEDC channel and timer allocator of components/ESP32Servo/src/ESP32PWM.cpp, in
 default mode on a 16-channel build. PWM objects are named by ids.
 */
module LedcAllocator {
  import opened Wrappers

  const NUM_PWM := 16
  const NUM_TIMERS := 4
  const PER_TIMER := 4

  type Id = nat

  /** One ESP32PWM object: its channel and timer, or -1, and the frequency it asked for. */
  datatype Pwm = Pwm(channel: int, timer: int, freq: real)

  const UNALLOCATED := Pwm(-1, -1, -1.0)

  type Owners = s: seq<Option<Id>> | |s| == NUM_PWM
    witness [None, None, None, None, None, None, None, None, None, None, None, None, None, None, None, None]

  type PerTimer = s: seq<int> | |s| == NUM_TIMERS witness [0, 0, 0, 0]

  /** ChannelUsed, timerCount, timerFreqSet, and the objects. */
  datatype State = State(owners: Owners, count: PerTimer, freqSet: PerTimer, objs: map<Id, Pwm>)

  /** The timer behind a channel, and the channels of a timer in the order they are tried. */
  function TimerOf(channel: nat): nat {
    channel / 2 % 4
  }

  function ChannelAt(timer: nat, index: nat): (c: nat)
    requires timer < NUM_TIMERS && index < PER_TIMER
    ensures c < NUM_PWM
  {
    if index < 2 then 2 * timer + index else 2 * timer + index + 6
  }

  function IndexOf(channel: nat): (i: nat)
    requires channel < NUM_PWM
    ensures i < PER_TIMER
  {
    if channel < 8 then channel % 2 else 2 + channel % 2
  }

  lemma TimerOfChannel(timer: nat, index: nat)
    requires timer < NUM_TIMERS && index < PER_TIMER
    ensures TimerOf(ChannelAt(timer, index)) == timer && IndexOf(ChannelAt(timer, index)) == index
  {}

  lemma ChannelOfTimer(channel: nat)
    requires channel < NUM_PWM
    ensures TimerOf(channel) < NUM_TIMERS && ChannelAt(TimerOf(channel), IndexOf(channel)) == channel
  {
    assert channel / 2 < 8;
    assert channel < 8 ==> TimerOf(channel) == channel / 2;
    assert channel >= 8 ==> TimerOf(channel) == channel / 2 - 4;
  }

  /** C's conversion of a double to long: truncation toward zero. */
  function Trunc(x: real): int {
    if x >= 0.0 then x.Floor else -((-x).Floor)
  }

  /** Truncation drops the fraction, whatever the sign. */
  lemma TruncDropsFraction(x: real)
    ensures x >= 0.0 ==> Trunc(x) as real <= x < Trunc(x) as real + 1.0
    ensures x < 0.0 ==> Trunc(x) as real - 1.0 < x <= Trunc(x) as real
  {}

  // ----- The allocator as functions of its state -----

  predicate Accepts(s: State, timer: nat, freq: int)
    requires timer < NUM_TIMERS
  {
    (s.freqSet[timer] == freq || s.freqSet[timer] == -1) && s.count[timer] < PER_TIMER
  }

  function FirstTimer(s: State, freq: int, timer: nat): (r: Option<nat>)
    requires timer <= NUM_TIMERS
    ensures r.Some? ==> timer <= r.value < NUM_TIMERS && Accepts(s, r.value, freq)
    ensures r.Some? ==> forall t | timer <= t < r.value :: !Accepts(s, t, freq)
    ensures r.None? ==> forall t | timer <= t < NUM_TIMERS :: !Accepts(s, t, freq)
    decreases NUM_TIMERS - timer
  {
    if timer == NUM_TIMERS then None
    else if Accepts(s, timer, freq) then Some(timer)
    else FirstTimer(s, freq, timer + 1)
  }

  predicate Free(s: State, timer: nat, index: nat)
    requires timer < NUM_TIMERS && index < PER_TIMER
  {
    s.owners[ChannelAt(timer, index)].None?
  }

  function FirstFree(s: State, timer: nat): (i: nat)
    requires timer < NUM_TIMERS
    requires exists k | 0 <= k < PER_TIMER :: Free(s, timer, k)
    ensures i < PER_TIMER && Free(s, timer, i) && forall k | 0 <= k < i :: !Free(s, timer, k)
  {
    if Free(s, timer, 0) then 0 else if Free(s, timer, 1) then 1 else if Free(s, timer, 2) then 2 else 3
  }

  /** The state after object `id` took the given channel. */
  function Take(s: State, id: Id, timer: nat, channel: nat, freq: real): State
    requires timer < NUM_TIMERS && channel < NUM_PWM
  {
    State(
      s.owners[channel := Some(id)],
      s.count[timer := s.count[timer] + 1],
      s.freqSet[timer := Trunc(freq)],
      s.objs[id := Pwm(channel, timer, freq)])
  }

  /** allocatenext for an unallocated object, on a consistent state. */
  function Allocate(s: State, id: Id, freq: real): State
    requires Inv(s)
  {
    match FirstTimer(s, Trunc(freq), 0)
    case None => s
    case Some(t) =>
      assert TimerAgrees(s, t);
      TimerHasRoom(s, t, Trunc(freq));
      Take(s, id, t, ChannelAt(t, FirstFree(s, t)), freq)
  }

  /** deallocate */
  function Release(s: State, id: Id): State
    requires id in s.objs
    requires s.objs[id].channel >= 0 ==> 0 <= s.objs[id].timer < NUM_TIMERS && s.objs[id].channel < NUM_PWM
  {
    var o := s.objs[id];
    if o.channel < 0 then s.(objs := s.objs[id := o.(timer := -1)])
    else
      var left := s.count[o.timer] - 1;
      State(
        s.owners[o.channel := None],
        s.count[o.timer := left],
        if left == 0 then s.freqSet[o.timer := -1] else s.freqSet,
        s.objs[id := o.(channel := -1, timer := -1)])
  }

  // ----- The invariant -----

  /** The object recorded for a channel points back at it, on the channel's timer and at the timer's frequency. */
  predicate OwnerAgrees(s: State, channel: nat)
    requires channel < NUM_PWM
  {
    ChannelOfTimer(channel);
    s.owners[channel].Some? ==>
      var id := s.owners[channel].value;
      && id in s.objs
      && s.objs[id].channel == channel
      && s.objs[id].timer == TimerOf(channel)
      && Trunc(s.objs[id].freq) == s.freqSet[TimerOf(channel)]
  }

  predicate ObjectAgrees(s: State, id: Id)
    requires id in s.objs
  {
    var o := s.objs[id];
    if o.channel < 0 then o.timer == -1 else o.channel < NUM_PWM && s.owners[o.channel] == Some(id)
  }

  function Held(s: State, channel: nat): int
    requires channel < NUM_PWM
  {
    if s.owners[channel].Some? then 1 else 0
  }

  /** How many of a timer's channels have an owner. */
  function OwnedOn(s: State, timer: nat): int
    requires timer < NUM_TIMERS
  {
    Held(s, ChannelAt(timer, 0)) + Held(s, ChannelAt(timer, 1)) + Held(s, ChannelAt(timer, 2)) + Held(s, ChannelAt(timer, 3))
  }

  predicate TimerAgrees(s: State, timer: nat)
    requires timer < NUM_TIMERS
  {
    s.count[timer] == OwnedOn(s, timer) && (s.count[timer] == 0 <==> s.freqSet[timer] == -1)
  }

  predicate Inv(s: State) {
    && (forall c | 0 <= c < NUM_PWM :: OwnerAgrees(s, c))
    && (forall id | id in s.objs :: ObjectAgrees(s, id))
    && (forall t | 0 <= t < NUM_TIMERS :: TimerAgrees(s, t))
  }

  /** A timer that is not full has a free channel, so the inner search never comes up empty. */
  lemma RoomMeansFree(s: State, timer: nat)
    requires timer < NUM_TIMERS && s.count[timer] == OwnedOn(s, timer)
    ensures s.count[timer] < PER_TIMER <==> exists k | 0 <= k < PER_TIMER :: Free(s, timer, k)
    ensures s.count[timer] > 0 <==> exists k | 0 <= k < PER_TIMER :: !Free(s, timer, k)
  {
    hide ChannelAt;
    assert Free(s, timer, 0) <==> Held(s, ChannelAt(timer, 0)) == 0;
    assert Free(s, timer, 1) <==> Held(s, ChannelAt(timer, 1)) == 0;
    assert Free(s, timer, 2) <==> Held(s, ChannelAt(timer, 2)) == 0;
    assert Free(s, timer, 3) <==> Held(s, ChannelAt(timer, 3)) == 0;
    hide Free, Held;
    FourCases(s, timer);
  }

  lemma FourCases(s: State, timer: nat)
    requires timer < NUM_TIMERS
    ensures (exists k | 0 <= k < PER_TIMER :: Free(s, timer, k)) <==>
            Free(s, timer, 0) || Free(s, timer, 1) || Free(s, timer, 2) || Free(s, timer, 3)
    ensures (exists k | 0 <= k < PER_TIMER :: !Free(s, timer, k)) <==>
            !Free(s, timer, 0) || !Free(s, timer, 1) || !Free(s, timer, 2) || !Free(s, timer, 3)
  {
    hide Free;
  }

  /** No channel has two owners. */
  lemma ChannelsAreExclusive(s: State, a: Id, b: Id)
    requires Inv(s) && a in s.objs && b in s.objs
    requires s.objs[a].channel >= 0 && s.objs[a].channel == s.objs[b].channel
    ensures a == b
  {
    hide OwnerAgrees, TimerAgrees;
    assert ObjectAgrees(s, a) && ObjectAgrees(s, b);
  }

  lemma OwnedAfterTake(s: State, timer: nat, index: nat, t: nat, after: State, id: Id)
    requires timer < NUM_TIMERS && index < PER_TIMER && t < NUM_TIMERS && Free(s, timer, index)
    requires after.owners == s.owners[ChannelAt(timer, index) := Some(id)]
    ensures OwnedOn(after, t) == OwnedOn(s, t) + if t == timer then 1 else 0
  {
    var c := ChannelAt(timer, index);
    TimerOfChannel(timer, index);
    TimerOfChannel(t, 0);
    TimerOfChannel(t, 1);
    TimerOfChannel(t, 2);
    TimerOfChannel(t, 3);
    hide ChannelAt, TimerOf, IndexOf;
    assert index == 0 || index == 1 || index == 2 || index == 3;
  }

  lemma OwnedAfterDrop(s: State, channel: nat, t: nat, after: State)
    requires channel < NUM_PWM && t < NUM_TIMERS && s.owners[channel].Some?
    requires after.owners == s.owners[channel := None]
    ensures OwnedOn(after, t) == OwnedOn(s, t) - if t == TimerOf(channel) then 1 else 0
  {
    ChannelOfTimer(channel);
    hide ChannelAt, TimerOf, IndexOf;
    var timer, index := TimerOf(channel), IndexOf(channel);
    assert Free(after, timer, index);
    var id := s.owners[channel].value;
    assert s.owners == after.owners[channel := Some(id)];
    OwnedAfterTake(after, timer, index, t, s, id);
  }

  lemma OwnerMeansBusy(s: State, channel: nat)
    requires channel < NUM_PWM && s.owners[channel].Some?
    ensures TimerOf(channel) < NUM_TIMERS && OwnedOn(s, TimerOf(channel)) > 0
  {
    ChannelOfTimer(channel);
    hide ChannelAt, TimerOf, IndexOf;
    assert IndexOf(channel) == 0 || IndexOf(channel) == 1 || IndexOf(channel) == 2 || IndexOf(channel) == 3;
  }

  // ----- What an allocation does -----

  lemma TakeKeepsTimers(s: State, id: Id, timer: nat, index: nat, freq: real)
    requires Inv(s) && timer < NUM_TIMERS && index < PER_TIMER && Free(s, timer, index)
    ensures var after := Take(s, id, timer, ChannelAt(timer, index), freq);
            && (forall t | 0 <= t < NUM_TIMERS && t != timer :: TimerAgrees(after, t))
            && (TimerAgrees(after, timer) <==> Trunc(freq) != -1)
  {
    hide Trunc, ChannelAt, OwnedOn, Free, OwnerAgrees, ObjectAgrees;
    var after := Take(s, id, timer, ChannelAt(timer, index), freq);
    forall t | 0 <= t < NUM_TIMERS
      ensures TimerAgrees(s, t) && OwnedOn(after, t) == OwnedOn(s, t) + if t == timer then 1 else 0
      ensures t != timer ==> TimerAgrees(after, t)
    {
      assert TimerAgrees(s, t);
      OwnedAfterTake(s, timer, index, t, after, id);
    }
    OwnedIsCounted(s, timer);
  }

  lemma OwnedIsCounted(s: State, timer: nat)
    requires timer < NUM_TIMERS
    ensures OwnedOn(s, timer) >= 0
  {}

  lemma TakeKeepsOwners(s: State, id: Id, timer: nat, index: nat, freq: real, c: nat)
    requires Inv(s) && id in s.objs && s.objs[id].channel < 0 && c < NUM_PWM
    requires timer < NUM_TIMERS && index < PER_TIMER && Free(s, timer, index) && Accepts(s, timer, Trunc(freq))
    ensures OwnerAgrees(Take(s, id, timer, ChannelAt(timer, index), freq), c)
  {
    assert OwnerAgrees(s, c);
    if s.owners[c].Some? {
      OwnerMeansBusy(s, c);
      assert TimerAgrees(s, TimerOf(c));
      assert s.freqSet[TimerOf(c)] != -1;
    }
    TimerOfChannel(timer, index);
    hide Trunc, ChannelAt, TimerOf, IndexOf, OwnedOn, Inv;
  }

  lemma TakeKeepsObjects(s: State, id: Id, timer: nat, index: nat, freq: real, o: Id)
    requires Inv(s) && id in s.objs && s.objs[id].channel < 0 && o in s.objs
    requires timer < NUM_TIMERS && index < PER_TIMER && Free(s, timer, index)
    ensures ObjectAgrees(Take(s, id, timer, ChannelAt(timer, index), freq), o)
  {
    assert ObjectAgrees(s, o);
    hide Trunc, ChannelAt, OwnerAgrees, TimerAgrees, Inv;
  }

  lemma TakeKeepsInvIff(s: State, id: Id, timer: nat, index: nat, freq: real)
    requires Inv(s) && id in s.objs && s.objs[id].channel < 0
    requires timer < NUM_TIMERS && index < PER_TIMER && Free(s, timer, index) && Accepts(s, timer, Trunc(freq))
    ensures Inv(Take(s, id, timer, ChannelAt(timer, index), freq)) <==> Trunc(freq) != -1
  {
    hide Trunc, ChannelAt, OwnerAgrees, ObjectAgrees, TimerAgrees, Free, Accepts;
    var after := Take(s, id, timer, ChannelAt(timer, index), freq);
    TakeKeepsTimers(s, id, timer, index, freq);
    forall c | 0 <= c < NUM_PWM
      ensures OwnerAgrees(after, c)
    {
      TakeKeepsOwners(s, id, timer, index, freq, c);
    }
    forall o | o in after.objs
      ensures ObjectAgrees(after, o)
    {
      TakeKeepsObjects(s, id, timer, index, freq, o);
    }
  }

  /** An allocation keeps the invariant unless it succeeds with a frequency that truncates to the idle mark -1. */
  lemma AllocateKeepsInvIff(s: State, id: Id, freq: real)
    requires Inv(s) && id in s.objs && s.objs[id].channel < 0
    ensures Inv(Allocate(s, id, freq)) <==> Trunc(freq) != -1 || FirstTimer(s, -1, 0).None?
  {
    hide Trunc, ChannelAt, Take, Accepts, FirstFree, OwnerAgrees, ObjectAgrees, OwnedOn, Free;
    match FirstTimer(s, Trunc(freq), 0)
    case None =>
    case Some(t) =>
      assert TimerAgrees(s, t);
      TimerHasRoom(s, t, Trunc(freq));
      hide TimerAgrees;
      TakeKeepsInvIff(s, id, t, FirstFree(s, t), freq);
  }

  lemma TimerHasRoom(s: State, timer: nat, freq: int)
    requires timer < NUM_TIMERS && TimerAgrees(s, timer) && Accepts(s, timer, freq)
    ensures exists k | 0 <= k < PER_TIMER :: Free(s, timer, k)
  {
    hide OwnedOn, Free;
    RoomMeansFree(s, timer);
  }

  // ----- When allocation fails -----

  /** Some owner on the timer runs at another truncated frequency. */
  predicate SharedElsewhere(s: State, timer: nat, freq: int)
    requires timer < NUM_TIMERS
  {
    exists k | 0 <= k < PER_TIMER :: !Free(s, timer, k) && RunsElsewhere(s, ChannelAt(timer, k), freq)
  }

  predicate RunsElsewhere(s: State, channel: nat, freq: int)
    requires channel < NUM_PWM
  {
    s.owners[channel].Some? && s.owners[channel].value in s.objs && Trunc(s.objs[s.owners[channel].value].freq) != freq
  }

  /** Every channel of the timer has an owner, or some owner on it runs at another truncated frequency. */
  predicate Unavailable(s: State, timer: nat, freq: int)
    requires timer < NUM_TIMERS
  {
    (forall k | 0 <= k < PER_TIMER :: !Free(s, timer, k)) || SharedElsewhere(s, timer, freq)
  }

  lemma OwnerRunsAtTimer(s: State, timer: nat, k: nat, freq: int)
    requires timer < NUM_TIMERS && k < PER_TIMER && Inv(s) && !Free(s, timer, k)
    ensures RunsElsewhere(s, ChannelAt(timer, k), freq) <==> s.freqSet[timer] != freq
  {
    assert OwnerAgrees(s, ChannelAt(timer, k));
    TimerOfChannel(timer, k);
    hide Inv, ChannelAt, TimerOf, IndexOf, Trunc;
  }

  lemma AcceptsIffAvailable(s: State, timer: nat, freq: int)
    requires Inv(s) && timer < NUM_TIMERS
    ensures Accepts(s, timer, freq) <==> !Unavailable(s, timer, freq)
  {
    assert TimerAgrees(s, timer);
    hide Free, OwnedOn, RunsElsewhere, Inv;
    RoomMeansFree(s, timer);
    OwnedIsCounted(s, timer);
    forall k | 0 <= k < PER_TIMER && !Free(s, timer, k)
      ensures RunsElsewhere(s, ChannelAt(timer, k), freq) <==> s.freqSet[timer] != freq
    {
      OwnerRunsAtTimer(s, timer, k, freq);
    }
  }

  /** Allocation fails exactly when every timer is full or shared at another frequency. */
  lemma AllocateFailsIff(s: State, id: Id, freq: real)
    requires Inv(s) && id in s.objs && s.objs[id].channel < 0
    ensures Allocate(s, id, freq).objs[id].channel < 0 <==> forall t | 0 <= t < NUM_TIMERS :: Unavailable(s, t, Trunc(freq))
    ensures Allocate(s, id, freq).objs[id].channel < 0 ==> Allocate(s, id, freq) == s
  {
    forall t | 0 <= t < NUM_TIMERS
      ensures Accepts(s, t, Trunc(freq)) <==> !Unavailable(s, t, Trunc(freq))
    {
      AcceptsIffAvailable(s, t, Trunc(freq));
    }
    hide Unavailable, Accepts, Trunc, ChannelAt, FirstFree, OwnerAgrees, ObjectAgrees, OwnedOn, Free;
    match FirstTimer(s, Trunc(freq), 0)
    case None =>
    case Some(t) =>
      assert TimerAgrees(s, t);
      TimerHasRoom(s, t, Trunc(freq));
      assert Allocate(s, id, freq).objs[id].channel == ChannelAt(t, FirstFree(s, t));
  }

  // ----- What a release does -----

  lemma ReleaseKeepsOwners(s: State, id: Id, c: nat)
    requires Inv(s) && id in s.objs && s.objs[id].channel >= 0 && c < NUM_PWM
    requires 0 <= s.objs[id].timer < NUM_TIMERS && s.objs[id].channel < NUM_PWM
    requires TimerAgrees(Release(s, id), s.objs[id].timer)
    ensures OwnerAgrees(Release(s, id), c)
  {
    var o := s.objs[id];
    var after := Release(s, id);
    assert OwnerAgrees(s, c) && ObjectAgrees(s, id);
    if after.owners[c].Some? {
      OwnerMeansBusy(after, c);
    }
    hide Trunc, TimerOf, OwnedOn, Inv;
  }

  lemma ReleaseKeepsTimers(s: State, id: Id, t: nat)
    requires Inv(s) && id in s.objs && s.objs[id].channel >= 0 && t < NUM_TIMERS
    requires 0 <= s.objs[id].timer < NUM_TIMERS && s.objs[id].channel < NUM_PWM
    ensures TimerAgrees(Release(s, id), t)
  {
    assert OwnerAgrees(s, s.objs[id].channel) && ObjectAgrees(s, id) && TimerAgrees(s, t);
    OwnedAfterDrop(s, s.objs[id].channel, t, Release(s, id));
    hide Trunc, TimerOf, OwnedOn, Inv;
  }

  /** What Inv says about the place of one object. */
  lemma ObjectPlace(s: State, id: Id)
    requires Inv(s) && id in s.objs
    ensures var o := s.objs[id];
            o.channel >= 0 ==> o.channel < NUM_PWM && 0 <= o.timer < NUM_TIMERS && o.timer == TimerOf(o.channel)
  {
    assert ObjectAgrees(s, id);
    if s.objs[id].channel >= 0 {
      assert OwnerAgrees(s, s.objs[id].channel);
      ChannelOfTimer(s.objs[id].channel);
    }
    hide Inv, TimerOf, Trunc;
  }

  lemma ReleaseKeepsInv(s: State, id: Id)
    requires Inv(s) && id in s.objs
    requires s.objs[id].channel >= 0 ==> 0 <= s.objs[id].timer < NUM_TIMERS && s.objs[id].channel < NUM_PWM
    ensures Inv(Release(s, id))
  {
    var after := Release(s, id);
    forall k | k in after.objs
      ensures ObjectAgrees(after, k)
    {
      assert ObjectAgrees(s, k) && ObjectAgrees(s, id);
      hide OwnerAgrees, TimerAgrees;
    }
    if s.objs[id].channel >= 0 {
      hide Release, OwnerAgrees, ObjectAgrees, TimerAgrees;
      forall t | 0 <= t < NUM_TIMERS
        ensures TimerAgrees(after, t)
      {
        ReleaseKeepsTimers(s, id, t);
      }
      forall c | 0 <= c < NUM_PWM
        ensures OwnerAgrees(after, c)
      {
        ReleaseKeepsOwners(s, id, c);
      }
    } else {
      IdleReleaseKeepsTables(s, id);
      hide Release, OwnerAgrees, ObjectAgrees, TimerAgrees;
    }
  }

  lemma IdleReleaseKeepsTables(s: State, id: Id)
    requires Inv(s) && id in s.objs && s.objs[id].channel < 0
    ensures forall c | 0 <= c < NUM_PWM :: OwnerAgrees(Release(s, id), c)
    ensures forall t | 0 <= t < NUM_TIMERS :: TimerAgrees(Release(s, id), t)
  {
    var after := Release(s, id);
    forall c | 0 <= c < NUM_PWM
      ensures OwnerAgrees(after, c)
    {
      assert OwnerAgrees(s, c);
      hide TimerOf, Trunc;
    }
    forall t | 0 <= t < NUM_TIMERS
      ensures TimerAgrees(after, t)
    {
      assert TimerAgrees(s, t);
      hide ChannelAt;
    }
  }

  // ----- The frequency check -----

  /** checkFrequencyForSideEffects rewrites a frequency that is more than 0.1 Hz away. */
  predicate Far(x: real, y: real) {
    x - y > 0.1 || x - y < -0.1
  }

  /** The owner of `channel` is retuned on behalf of the owner of channel `mine`. */
  predicate Retunes(s: State, timer: int, mine: int, freq: real, channel: nat)
    requires channel < NUM_PWM
  {
    && channel != mine && s.owners[channel].Some? && s.owners[channel].value in s.objs
    && s.objs[s.owners[channel].value].timer == timer && Far(s.objs[s.owners[channel].value].freq, freq)
  }

  function RetuneAt(s: State, timer: int, mine: int, freq: real, channel: nat): State
    requires channel < NUM_PWM
  {
    if Retunes(s, timer, mine, freq, channel) then
      var id := s.owners[channel].value;
      s.(objs := s.objs[id := s.objs[id].(freq := freq)])
    else s
  }

  /** The owners of the first `n` channels of the timer, other than `mine`, brought to the frequency. */
  function RetuneUpTo(s: State, timer: nat, mine: int, freq: real, n: nat): State
    requires timer < NUM_TIMERS && n <= PER_TIMER
  {
    if n == 0 then s else RetuneAt(RetuneUpTo(s, timer, mine, freq, n - 1), timer, mine, freq, ChannelAt(timer, n - 1))
  }

  /** How many channels of the timer the check looks at: as many as it has owners, not those that have one. */
  function LooksAt(s: State, timer: nat): nat
    requires timer < NUM_TIMERS
  {
    if s.count[timer] < 0 then 0 else if s.count[timer] > PER_TIMER then PER_TIMER else s.count[timer]
  }

  function RetuneOthers(s: State, id: Id, freq: real): State
    requires id in s.objs
  {
    var o := s.objs[id];
    if o.timer < 0 || o.timer > 3 then s else RetuneUpTo(s, o.timer, o.channel, freq, LooksAt(s, o.timer))
  }

  /** checkFrequencyForSideEffects on any object. */
  function Check(s: State, id: Id, freq: real): State
    requires Inv(s) && id in s.objs
  {
    if s.objs[id].channel < 0 then
      AllocateFreq(s, id, freq);
      RetuneOthers(Allocate(s, id, freq), id, freq)
    else RetuneOthers(s, id, freq)
  }

  /** An object without a channel may ask for any frequency it cannot get, or that is not the idle mark;
      an allocated one for its timer's, or for one that no other owner looked at is away from. */
  predicate CheckIsHarmless(s: State, id: Id, freq: real)
    requires Inv(s) && id in s.objs
  {
    var o := s.objs[id];
    if o.channel < 0 then Trunc(freq) != -1 || FirstTimer(s, -1, 0).None?
    else
      ObjectPlace(s, id);
      || Trunc(freq) == s.freqSet[o.timer]
      || forall i | 0 <= i < LooksAt(s, o.timer) :: !Retunes(s, o.timer, o.channel, freq, ChannelAt(o.timer, i))
  }

  /** Only frequencies change, and only to the asked one. */
  predicate OnlyRetuned(after: State, s: State, freq: real) {
    && after.owners == s.owners && after.count == s.count && after.freqSet == s.freqSet && after.objs.Keys == s.objs.Keys
    && forall o | o in s.objs :: SameButFreq(after.objs[o], s.objs[o], freq)
  }

  lemma {:induction false} RetuneEffect(s: State, timer: nat, mine: int, freq: real, n: nat)
    requires timer < NUM_TIMERS && n <= PER_TIMER
    ensures OnlyRetuned(RetuneUpTo(s, timer, mine, freq, n), s, freq)
    decreases n
  {
    if n > 0 {
      RetuneEffect(s, timer, mine, freq, n - 1);
      hide ChannelAt, Far;
    }
  }

  lemma RetuneStep(s: State, timer: nat, mine: int, freq: real, i: nat)
    requires timer < NUM_TIMERS
    ensures i < PER_TIMER ==> RetuneUpTo(s, timer, mine, freq, i + 1) ==
                                RetuneAt(RetuneUpTo(s, timer, mine, freq, i), timer, mine, freq, ChannelAt(timer, i))
    ensures RetuneUpTo(s, timer, mine, freq, 0) == s
  {}

  /** Every owner looked at that was away from the frequency ends on it; if none was, nothing changes. */
  lemma {:induction false} RetuneReaches(s: State, timer: nat, mine: int, freq: real, n: nat, i: nat)
    requires timer < NUM_TIMERS && i < n <= PER_TIMER
    ensures OnlyRetuned(RetuneUpTo(s, timer, mine, freq, n), s, freq)
    ensures Retunes(s, timer, mine, freq, ChannelAt(timer, i)) ==>
              RetuneUpTo(s, timer, mine, freq, n).objs[s.owners[ChannelAt(timer, i)].value].freq == freq
    decreases n
  {
    hide ChannelAt;
    RetuneEffect(s, timer, mine, freq, n);
    RetuneEffect(s, timer, mine, freq, n - 1);
    if i < n - 1 {
      RetuneReaches(s, timer, mine, freq, n - 1, i);
    }
  }

  lemma {:induction false} RetuneNothing(s: State, timer: nat, mine: int, freq: real, n: nat)
    requires timer < NUM_TIMERS && n <= PER_TIMER
    requires forall i | 0 <= i < n :: !Retunes(s, timer, mine, freq, ChannelAt(timer, i))
    ensures RetuneUpTo(s, timer, mine, freq, n) == s
    decreases n
  {
    hide ChannelAt, Retunes;
    if n > 0 {
      RetuneNothing(s, timer, mine, freq, n - 1);
    }
  }

  lemma {:induction false} RetuneUpToKeepsInv(s: State, timer: nat, mine: int, freq: real, n: nat)
    requires Inv(s) && timer < NUM_TIMERS && n <= PER_TIMER && s.freqSet[timer] == Trunc(freq)
    ensures Inv(RetuneUpTo(s, timer, mine, freq, n))
    decreases n
  {
    hide Inv, ChannelAt, Far, Trunc;
    if n > 0 {
      var before, c := RetuneUpTo(s, timer, mine, freq, n - 1), ChannelAt(timer, n - 1);
      RetuneUpToKeepsInv(s, timer, mine, freq, n - 1);
      RetuneEffect(s, timer, mine, freq, n - 1);
      if Retunes(before, timer, mine, freq, c) {
        OwnerPlace(before, c);
        RetuneKeepsInv(before, before.owners[c].value, freq);
      }
    }
  }

  /** Retuning changes neither how many owners a timer has nor its entry, so it neither breaks nor repairs a timer. */
  lemma RetuneKeepsTimers(after: State, s: State, freq: real, t: nat)
    requires OnlyRetuned(after, s, freq) && t < NUM_TIMERS
    ensures TimerAgrees(after, t) <==> TimerAgrees(s, t)
  {
    hide ChannelAt;
  }

  lemma AllocatedCheckIff(s: State, id: Id, freq: real)
    requires Inv(s) && id in s.objs && s.objs[id].channel >= 0
    ensures Inv(RetuneOthers(s, id, freq)) <==> CheckIsHarmless(s, id, freq)
  {
    var o := s.objs[id];
    ObjectPlace(s, id);
    var n := LooksAt(s, o.timer);
    var after := RetuneOthers(s, id, freq);
    assert after == RetuneUpTo(s, o.timer, o.channel, freq, n);
    hide RetuneUpTo, Inv, Trunc, ChannelAt, TimerOf, LooksAt;
    if Trunc(freq) == s.freqSet[o.timer] {
      RetuneUpToKeepsInv(s, o.timer, o.channel, freq, n);
    } else if forall i | 0 <= i < n :: !Retunes(s, o.timer, o.channel, freq, ChannelAt(o.timer, i)) {
      RetuneNothing(s, o.timer, o.channel, freq, n);
    } else {
      var i :| 0 <= i < n && Retunes(s, o.timer, o.channel, freq, ChannelAt(o.timer, i));
      RetuneReaches(s, o.timer, o.channel, freq, n, i);
      RetuneEffect(s, o.timer, o.channel, freq, n);
      DetunedBreaksInv(after, o.timer, i, freq);
    }
  }

  lemma DetunedBreaksInv(s: State, timer: nat, i: nat, freq: real)
    requires timer < NUM_TIMERS && i < PER_TIMER && s.owners[ChannelAt(timer, i)].Some?
    requires s.owners[ChannelAt(timer, i)].value in s.objs && s.objs[s.owners[ChannelAt(timer, i)].value].freq == freq
    requires Trunc(freq) != s.freqSet[timer]
    ensures !Inv(s)
  {
    TimerOfChannel(timer, i);
    assert !OwnerAgrees(s, ChannelAt(timer, i)) by {
      hide ChannelAt, TimerOf, Trunc;
    }
    hide OwnerAgrees, ChannelAt;
  }

  /**
   The check keeps the tables consistent if and only if it is harmless: retuning the owners
   of a timer to another truncated frequency leaves the timer's own entry behind.
   */
  lemma CheckKeepsInvIff(s: State, id: Id, freq: real)
    requires Inv(s) && id in s.objs
    ensures Inv(Check(s, id, freq)) <==> CheckIsHarmless(s, id, freq)
  {
    if s.objs[id].channel >= 0 {
      AllocatedCheckIff(s, id, freq);
    } else {
      var a := Allocate(s, id, freq);
      AllocateKeepsInvIff(s, id, freq);
      AllocateFreq(s, id, freq);
      var o := a.objs[id];
      hide Allocate, Inv, Trunc, LooksAt, RetuneUpTo;
      if o.timer >= 0 {
        var n := LooksAt(a, o.timer);
        RetuneEffect(a, o.timer, o.channel, freq, n);
        if Trunc(freq) != -1 {
          RetuneUpToKeepsInv(a, o.timer, o.channel, freq, n);
        } else {
          BrokenTimerStays(a, RetuneUpTo(a, o.timer, o.channel, freq, n), o.timer, freq);
        }
      }
    }
  }

  /** An allocation at the idle mark breaks the timer's own entry, which no retuning repairs. */
  lemma BrokenTimerStays(s: State, after: State, timer: nat, freq: real)
    requires timer < NUM_TIMERS && OnlyRetuned(after, s, freq)
    requires s.freqSet[timer] == -1 && s.count[timer] > 0
    ensures !Inv(after)
  {
    assert !TimerAgrees(s, timer);
    RetuneKeepsTimers(after, s, freq, timer);
    hide TimerAgrees;
  }

  /** Two servos at 50 Hz that share timer 0. */
  function SharedTimer(): State {
    State(
      [Some(0), Some(1), None, None, None, None, None, None, None, None, None, None, None, None, None, None],
      [2, 0, 0, 0], [50, -1, -1, -1], map[0 := Pwm(0, 0, 50.0), 1 := Pwm(1, 0, 50.0)])
  }

  lemma SharedTimerIsConsistent()
    ensures Inv(SharedTimer())
  {
    var s := SharedTimer();
    assert Trunc(50.0) == 50;
    assert OwnerAgrees(s, 0) && OwnerAgrees(s, 1);
    assert forall c | 2 <= c < NUM_PWM :: s.owners[c].None?;
    forall t | 0 <= t < NUM_TIMERS
      ensures TimerAgrees(s, t)
    {
      SharedTimerCounts(t);
    }
    hide TimerAgrees, Trunc, TimerOf;
  }

  lemma SharedTimerCounts(t: nat)
    requires t < NUM_TIMERS
    ensures TimerAgrees(SharedTimer(), t)
  {
    var s := SharedTimer();
    assert t == 0 || t == 1 || t == 2 || t == 3;
    assert OwnedOn(s, t) == Held(s, 2 * t) + Held(s, 2 * t + 1) + Held(s, 2 * t + 8) + Held(s, 2 * t + 9);
  }

  /** Setting one of them up again at 100 Hz retunes the other and leaves the timer's entry at 50. */
  lemma SetupCanBreakTables()
    ensures Inv(SharedTimer()) && !Inv(Check(SharedTimer(), 0, 100.0))
  {
    var s := SharedTimer();
    SharedTimerIsConsistent();
    assert Trunc(100.0) == 100 && LooksAt(s, 0) == 2 && ChannelAt(0, 1) == 1;
    assert Retunes(s, 0, 0, 100.0, ChannelAt(0, 1));
    hide Inv, Check, Retunes, Trunc, LooksAt;
    assert !CheckIsHarmless(s, 0, 100.0);
    CheckKeepsInvIff(s, 0, 100.0);
  }

  // ----- Runs -----

  /** Construction, setup at a frequency, and deallocation of an object. */
  datatype Op = Create(id: Id) | Setup(id: Id, freq: real) | Dispose(id: Id)

  /** New ids are fresh, objects exist, and no setup is one of those that break the tables. */
  predicate Legal(s: State, op: Op)
    requires Inv(s)
  {
    match op
    case Create(id) => id !in s.objs
    case Setup(id, freq) => id in s.objs && CheckIsHarmless(s, id, freq)
    case Dispose(id) => id in s.objs
  }

  function Perform(s: State, op: Op): State
    requires Inv(s) && Legal(s, op)
  {
    match op
    case Create(id) => s.(objs := s.objs[id := UNALLOCATED])
    case Setup(id, freq) => Check(s, id, freq)
    case Dispose(id) =>
      ObjectPlace(s, id);
      Release(s, id)
  }

  lemma PerformKeepsInv(s: State, op: Op)
    requires Inv(s) && Legal(s, op)
    ensures Inv(Perform(s, op))
  {
    match op
    case Create(id) =>
      CreateKeepsInv(s, id);
    case Setup(id, freq) =>
      CheckKeepsInvIff(s, id, freq);
      hide Inv, Check, CheckIsHarmless;
    case Dispose(id) =>
      ObjectPlace(s, id);
      ReleaseKeepsInv(s, id);
      hide Inv, Release;
  }

  lemma CreateKeepsInv(s: State, id: Id)
    requires Inv(s) && id !in s.objs
    ensures Inv(s.(objs := s.objs[id := UNALLOCATED]))
  {
    var after := s.(objs := s.objs[id := UNALLOCATED]);
    forall c | 0 <= c < NUM_PWM
      ensures OwnerAgrees(after, c)
    {
      assert OwnerAgrees(s, c);
      hide TimerOf, Trunc;
    }
    forall k | k in after.objs
      ensures ObjectAgrees(after, k)
    {
      assert k in s.objs ==> ObjectAgrees(s, k);
    }
    forall t | 0 <= t < NUM_TIMERS
      ensures TimerAgrees(after, t)
    {
      assert TimerAgrees(s, t);
      hide ChannelAt;
    }
  }

  function NoOwners(): (r: Owners)
    ensures forall c | 0 <= c < NUM_PWM :: r[c].None?
  {
    seq(NUM_PWM, c => None)
  }

  /** The tables before any object was created. */
  function Idle(): State {
    State(NoOwners(), [0, 0, 0, 0], [-1, -1, -1, -1], map[])
  }

  lemma IdleIsConsistent()
    ensures Inv(Idle())
  {
    hide ChannelAt, TimerOf, NoOwners;
    forall t | 0 <= t < NUM_TIMERS
      ensures TimerAgrees(Idle(), t)
    {
      assert t == 0 || t == 1 || t == 2 || t == 3;
    }
  }

  /** The tables do break at such a frequency: the timer has an owner and still reads idle. */
  lemma AllocateCanBreakTables()
    ensures var s := Idle().(objs := map[0 := UNALLOCATED]);
            Inv(s) && !Inv(Allocate(s, 0, -1.0))
  {
    var s := Idle().(objs := map[0 := UNALLOCATED]);
    IdleIsConsistent();
    CreateKeepsInv(Idle(), 0);
    assert Idle().objs[0 := UNALLOCATED] == map[0 := UNALLOCATED];
    assert Trunc(-1.0) == -1 && Accepts(s, 0, -1);
    hide Inv, Allocate, Trunc, Accepts;
    AllocateKeepsInvIff(s, 0, -1.0);
  }

  /** A run: each state but the last is followed by a legal operation on it. */
  predicate IsRun(states: seq<State>, ops: seq<Op>) {
    && |states| == |ops| + 1
    && states[0] == Idle()
    && forall i | 0 <= i < |ops| ::
         Inv(states[i]) ==> Legal(states[i], ops[i]) && states[i + 1] == Perform(states[i], ops[i])
  }

  /** Over every run of creations, setups and disposals the tables stay consistent. */
  lemma {:induction false} RunKeepsInv(states: seq<State>, ops: seq<Op>, i: nat)
    requires IsRun(states, ops) && i <= |ops|
    ensures Inv(states[i])
    decreases i
  {
    hide Inv, Perform, Legal;
    if i == 0 {
      IdleIsConsistent();
    } else {
      RunKeepsInv(states, ops, i - 1);
      PerformKeepsInv(states[i - 1], ops[i - 1]);
    }
  }

  // ----- The library -----

  class Ledc {
    var owners: Owners
    var count: PerTimer
    var freqSet: PerTimer
    var objs: map<Id, Pwm>

    ghost function Tables(): State
      reads this
    {
      State(owners, count, freqSet, objs)
    }

    constructor ()
      ensures Tables() == Idle()
    {
      owners := NoOwners();
      count := [0, 0, 0, 0];
      freqSet := [-1, -1, -1, -1];
      objs := map[];
    }

    method TimerAndIndexToChannel(timer: nat, index: nat) returns (channel: int)
      requires timer < NUM_TIMERS
      ensures channel == if index < PER_TIMER then ChannelAt(timer, index) else -1
    {
      hide TimerOf;
      var localIndex := 0;
      for j := 0 to NUM_PWM
        invariant localIndex <= index
        invariant localIndex == SeenBefore(timer, j)
      {
        SeenStep(timer, j);
        if TimerOf(j) == timer {
          if localIndex == index {
            return j;
          }
          localIndex := localIndex + 1;
        }
      }
      return -1;
    }

    method AllocateNext(id: Id, freq: real) returns (channel: int)
      requires Inv(Tables()) && id in objs
      modifies this
      ensures old(objs[id]).channel >= 0 ==> Tables() == old(Tables()) && channel == objs[id].channel
      ensures old(objs[id]).channel < 0 ==> Tables() == Allocate(old(Tables()), id, freq) && channel == objs[id].channel
    {
      hide ChannelAt, OwnerAgrees, ObjectAgrees, OwnedOn;
      if objs[id].channel >= 0 {
        return objs[id].channel;
      }
      assert ObjectAgrees(Tables(), id);
      ghost var s := Tables();
      var freqLocal := Trunc(freq);
      var i := 0;
      while i < NUM_TIMERS
        invariant 0 <= i <= NUM_TIMERS && Tables() == s
        invariant FirstTimer(s, freqLocal, i) == FirstTimer(s, freqLocal, 0)
      {
        if (freqSet[i] == freqLocal || freqSet[i] == -1) && count[i] < PER_TIMER {
          assert Accepts(s, i, freqLocal) && TimerAgrees(s, i);
          TimerHasRoom(s, i, freqLocal);
          channel := TakeFirstFree(id, i, freq);
          return;
        }
        i := i + 1;
      }
      UnallocatedIsMinusOne(s, id);
      return objs[id].channel;
    }

    /** The inner search: the first channel of the timer without an owner. */
    method TakeFirstFree(id: Id, timer: nat, freq: real) returns (channel: int)
      requires timer < NUM_TIMERS && id in objs && Accepts(Tables(), timer, Trunc(freq))
      requires exists k | 0 <= k < PER_TIMER :: Free(Tables(), timer, k)
      modifies this
      ensures channel >= 0 && channel == ChannelAt(timer, FirstFree(old(Tables()), timer))
      ensures Tables() == Take(old(Tables()), id, timer, channel, freq)
    {
      hide ChannelAt, Trunc;
      if freqSet[timer] == -1 {
        freqSet := freqSet[timer := Trunc(freq)];
      }
      assert freqSet == old(freqSet)[timer := Trunc(freq)];
      var index := 0;
      while index < PER_TIMER
        invariant 0 <= index <= PER_TIMER
        invariant owners == old(owners) && count == old(count) && objs == old(objs)
        invariant freqSet == old(freqSet)[timer := Trunc(freq)]
        invariant forall k | 0 <= k < index :: !Free(old(Tables()), timer, k)
      {
        channel := TimerAndIndexToChannel(timer, index);
        if channel >= 0 && owners[channel].None? {
          assert Free(old(Tables()), timer, index);
          owners := owners[channel := Some(id)];
          count := count[timer := count[timer] + 1];
          objs := objs[id := Pwm(channel, timer, freq)];
          return;
        }
        index := index + 1;
      }
      assert false;
    }

    method Deallocate(id: Id)
      requires Inv(Tables()) && id in objs
      modifies this
      ensures objs.Keys == old(objs).Keys
      ensures var o := old(objs)[id];
              o.channel >= 0 ==> o.channel < NUM_PWM && 0 <= o.timer < NUM_TIMERS
      ensures Tables() == Release(old(Tables()), id)
    {
      ObjectPlace(Tables(), id);
      hide Inv, TimerOf;
      var o := objs[id];
      if o.channel >= 0 {
        count := count[o.timer := count[o.timer] - 1];
        if count[o.timer] == 0 {
          freqSet := freqSet[o.timer := -1];
        }
        owners := owners[o.channel := None];
        o := o.(channel := -1);
      }
      objs := objs[id := o.(timer := -1)];
    }

    method CheckFrequencyForSideEffects(id: Id, freq: real)
      requires Inv(Tables()) && id in objs
      modifies this
      ensures Tables() == Check(old(Tables()), id, freq)
      ensures Inv(Tables()) <==> CheckIsHarmless(old(Tables()), id, freq)
    {
      CheckKeepsInvIff(Tables(), id, freq);
      AllocateKnowsOwners(Tables(), id, freq);
      if objs[id].channel < 0 {
        AllocateFreq(Tables(), id, freq);
      } else {
        ObjectPlace(Tables(), id);
      }
      hide Inv, Allocate, CheckIsHarmless, RetuneUpTo;
      var channel := AllocateNext(id, freq);
      var timer := objs[id].timer;
      if timer < 0 || timer > 3 {
        return;
      }
      RetuneSharers(timer, channel, freq);
    }

    /** The loop over the timer's channels. */
    method RetuneSharers(timer: nat, channel: int, freq: real)
      requires timer < NUM_TIMERS
      requires forall c | 0 <= c < NUM_PWM && owners[c].Some? :: owners[c].value in objs
      modifies this
      ensures Tables() == RetuneUpTo(old(Tables()), timer, channel, freq, LooksAt(old(Tables()), timer))
    {
      hide RetuneUpTo, ChannelAt, Retunes;
      ghost var s := Tables();
      var safeCount := if count[timer] < 0 then 0 else if count[timer] > NUM_PWM then NUM_PWM else count[timer];
      RetuneStep(s, timer, channel, freq, 0);
      var i := 0;
      while i < safeCount
        invariant 0 <= i <= safeCount
        invariant Tables() == RetuneUpTo(s, timer, channel, freq, if i < PER_TIMER then i else PER_TIMER)
        invariant owners == s.owners && objs.Keys == s.objs.Keys
        decreases safeCount - i
      {
        RetuneStep(s, timer, channel, freq, i);
        var pwm := TimerAndIndexToChannel(timer, i);
        if 0 <= pwm < NUM_PWM {
          RetuneOwner(pwm, timer, channel, freq);
        }
        i := i + 1;
      }
    }

    /** The loop's body. */
    method RetuneOwner(pwm: nat, timer: nat, channel: int, freq: real)
      requires pwm < NUM_PWM && (owners[pwm].Some? ==> owners[pwm].value in objs)
      modifies this`objs
      ensures objs.Keys == old(objs).Keys && Tables() == RetuneAt(old(Tables()), timer, channel, freq, pwm)
    {
      if pwm == channel {
        return;
      }
      if owners[pwm].Some? {
        var other := owners[pwm].value;
        if objs[other].timer == timer {
          var diff := objs[other].freq - freq;
          if diff > 0.1 || diff < -0.1 {
            objs := objs[other := objs[other].(freq := freq)];
          }
        }
      }
    }
  }

  function Clamp2(x: int): nat {
    if x <= 0 then 0 else if x >= 2 then 2 else x
  }

  /** How many of the channels below `j` belong to the timer: two of each group of eight. */
  function SeenBefore(timer: nat, j: nat): nat {
    Clamp2(j - 2 * timer) + Clamp2(j - 2 * timer - 8)
  }

  lemma SeenStep(timer: nat, j: nat)
    requires timer < NUM_TIMERS && j < NUM_PWM
    ensures SeenBefore(timer, j + 1) == SeenBefore(timer, j) + if TimerOf(j) == timer then 1 else 0
    ensures TimerOf(j) == timer ==> SeenBefore(timer, j) < PER_TIMER && j == ChannelAt(timer, SeenBefore(timer, j))
  {
    ChannelOfTimer(j);
    hide TimerOf;
  }

  lemma UnallocatedIsMinusOne(s: State, id: Id)
    requires Inv(s) && id in s.objs && s.objs[id].channel < 0
    ensures s.objs[id].timer == -1
  {
    assert ObjectAgrees(s, id);
    hide Inv;
  }

  /** `now` is the object `was`, possibly retuned to `freq`. */
  predicate SameButFreq(now: Pwm, was: Pwm, freq: real) {
    now == was || now == was.(freq := freq)
  }

  /** A successful allocation leaves the object, and its timer, at the asked frequency. */
  lemma AllocateFreq(s: State, id: Id, freq: real)
    requires Inv(s) && id in s.objs && s.objs[id].channel < 0
    ensures var after := Allocate(s, id, freq);
            && id in after.objs
            && (after.objs[id].channel < 0 ==> after == s && after.objs[id].timer == -1)
            && (after.objs[id].channel >= 0 ==>
                  && 0 <= after.objs[id].timer < NUM_TIMERS
                  && after.count[after.objs[id].timer] > 0
                  && after.freqSet[after.objs[id].timer] == Trunc(freq))
  {
    UnallocatedIsMinusOne(s, id);
    forall t | 0 <= t < NUM_TIMERS
      ensures s.count[t] >= 0
    {
      assert TimerAgrees(s, t);
      OwnedIsCounted(s, t);
    }
    hide Trunc, FirstFree, ChannelAt, TimerAgrees, OwnerAgrees, ObjectAgrees, OwnedOn;
  }

  /** Every owner is a known object, also after an allocation. */
  lemma AllocateKnowsOwners(s: State, id: Id, freq: real)
    requires Inv(s) && id in s.objs
    ensures forall c | 0 <= c < NUM_PWM && s.owners[c].Some? :: s.owners[c].value in s.objs
    ensures s.objs[id].channel < 0 ==>
              var a := Allocate(s, id, freq);
              forall c | 0 <= c < NUM_PWM && a.owners[c].Some? :: a.owners[c].value in a.objs
  {
    forall c | 0 <= c < NUM_PWM && s.owners[c].Some?
      ensures s.owners[c].value in s.objs
    {
      assert OwnerAgrees(s, c);
    }
    hide Trunc, ChannelAt, FirstFree, OwnerAgrees, ObjectAgrees, OwnedOn;
  }

  lemma OwnerPlace(s: State, channel: nat)
    requires Inv(s) && channel < NUM_PWM && s.owners[channel].Some?
    ensures s.owners[channel].value in s.objs && s.objs[s.owners[channel].value].channel == channel
    ensures s.objs[s.owners[channel].value].timer == TimerOf(channel) < NUM_TIMERS
  {
    assert OwnerAgrees(s, channel);
    hide Inv, TimerOf, Trunc;
  }

  lemma RetuneKeepsInv(s: State, id: Id, freq: real)
    requires Inv(s) && id in s.objs && 0 <= s.objs[id].timer < NUM_TIMERS
    requires s.objs[id].channel >= 0 && s.freqSet[s.objs[id].timer] == Trunc(freq)
    ensures Inv(s.(objs := s.objs[id := s.objs[id].(freq := freq)]))
  {
    var after := s.(objs := s.objs[id := s.objs[id].(freq := freq)]);
    forall c | 0 <= c < NUM_PWM
      ensures OwnerAgrees(after, c)
    {
      assert OwnerAgrees(s, c);
      hide Trunc, TimerOf;
    }
    forall k | k in after.objs
      ensures ObjectAgrees(after, k)
    {
      assert ObjectAgrees(s, k);
    }
    forall t | 0 <= t < NUM_TIMERS
      ensures TimerAgrees(after, t)
    {
      assert TimerAgrees(s, t);
      hide ChannelAt;
    }
  }
}
