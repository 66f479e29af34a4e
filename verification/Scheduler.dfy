/**
 * The cooperative sensor scheduler: every tick gives each component at most one step that
 * cannot block, from a rotating start.
 */
module Scheduler {
  import opened Bytes
  import opened Driver

  const MAX_COMPONENTS := 8
  const MAX_CHANNELS := 4

  /** One component with its due time, the channel it is at and its latest readings. */
  datatype Slot<!P> = Slot(ctx: Ctx<P>, nextDue: int, cursor: nat, latest: map<nat, Reading>)

  /** What steps add to the counters. */
  datatype Tally = Tally(stepped: nat, readings: nat, errors: nat, faulted: nat)

  function Plus(a: Tally, b: Tally): Tally {
    Tally(a.stepped + b.stepped, a.readings + b.readings, a.errors + b.errors, a.faulted + b.faulted)
  }

  function Interval<P>(s: Slot<P>): int {
    if s.ctx.vt.None? then 0 else s.ctx.vt.value.minIntervalMs * 1000
  }

  function Failed<P>(c: Ctx<P>): Tally {
    Tally(1, 0, 1, if c.phase.Retired? then 1 else 0)
  }

  /** One step of one component, due or not. */
  function StepSlot<P>(s: Slot<P>, now: int): (Slot<P>, Tally) {
    if s.ctx.vt.None? || s.ctx.phase.Retired? || now < s.nextDue then (s, Tally(0, 0, 0, 0))
    else if s.ctx.phase.Warmup? || s.ctx.phase.Idle? || s.ctx.phase.Sleeping? then
      var (c, r) := StartRead(s.ctx, now);
      if r.err == NotReady then (s.(ctx := c), Tally(1, 0, 0, 0))
      else if IsError(r.err) then (s.(ctx := c, nextDue := now + Interval(s)), Failed(c))
      else (s.(ctx := c, cursor := 0), Tally(1, 0, 0, 0))
    else if s.ctx.phase.Measuring? || s.ctx.phase.Ready? then
      var (c, r) := Poll(s.ctx, s.cursor, now);
      if r.err == NotReady then (s.(ctx := c), Tally(1, 0, 0, 0))
      else if IsError(r.err) then (s.(ctx := c, nextDue := now + Interval(s), cursor := 0), Failed(c))
      else (Collected(s.(ctx := c), r.reading, now), Tally(1, 1, 0, 0))
    else (s, Tally(0, 0, 0, 0))
  }

  /** A reading came out: the next channel next time, or the next measurement an interval on. */
  function Collected<P>(s: Slot<P>, reading: Option<Reading>, now: int): Slot<P> {
    var kept := if reading.Some? && s.cursor < MAX_CHANNELS then s.(latest := s.latest[s.cursor := reading.value]) else s;
    if s.ctx.vt.Some? && s.cursor + 1 < s.ctx.vt.value.channelCount then kept.(cursor := s.cursor + 1)
    else kept.(cursor := 0, nextDue := now + Interval(s))
  }

  /** Which slot has turn `i`, and which turn slot `k` has. */
  function SlotOfTurn(rotation: nat, i: nat, count: nat): (k: nat)
    requires rotation < count && i < count
    ensures k < count
  {
    (rotation + i) % count
  }

  function TurnOfSlot(rotation: nat, k: nat, count: nat): (i: nat)
    requires rotation < count && k < count
    ensures i < count
  {
    if k >= rotation then k - rotation else k + count - rotation
  }

  lemma TurnsAreSlots(rotation: nat, i: nat, count: nat)
    requires rotation < count && i < count
    ensures TurnOfSlot(rotation, SlotOfTurn(rotation, i, count), count) == i
    ensures forall k :: 0 <= k < count && TurnOfSlot(rotation, k, count) == i ==> k == SlotOfTurn(rotation, i, count)
  {
    if rotation + i < count {
      SmallMod(rotation + i, count);
    } else {
      SmallMod(rotation + i - count, count);
      ModLess(rotation + i, count);
    }
  }

  lemma SmallMod(n: nat, m: nat)
    requires n < m
    ensures n % m == n
  {
  }

  lemma ModLess(n: nat, m: nat)
    requires 0 < m <= n < 2 * m
    ensures n % m == n - m
  {
    assert n == m * 1 + (n - m);
    assert n / m == 1;
  }

  /** The sum of what the first `n` turns add. */
  function Turns<P>(slots: seq<Slot<P>>, rotation: nat, n: nat, now: int): Tally
    requires rotation < |slots| && n <= |slots|
  {
    if n == 0 then Tally(0, 0, 0, 0)
    else Plus(Turns(slots, rotation, n - 1, now), StepSlot(slots[SlotOfTurn(rotation, n - 1, |slots|)], now).1)
  }

  lemma NoTurns<P>(slots: seq<Slot<P>>, rotation: nat, now: int, stats: Tally)
    requires rotation < |slots|
    ensures Turns(slots, rotation, 0, now).stepped == 0 && Plus(stats, Turns(slots, rotation, 0, now).(stepped := 0)) == stats
  {
  }

  lemma OneMoreTurn<P>(slots: seq<Slot<P>>, rotation: nat, i: nat, now: int, stats: Tally)
    requires rotation < |slots| && i < |slots|
    ensures var t, one := Turns(slots, rotation, i, now), StepSlot(slots[SlotOfTurn(rotation, i, |slots|)], now).1;
            && Turns(slots, rotation, i + 1, now).stepped == t.stepped + one.stepped
            && Plus(Plus(stats, t.(stepped := 0)), one.(stepped := 0)) == Plus(stats, Turns(slots, rotation, i + 1, now).(stepped := 0))
  {
    hide StepSlot, SlotOfTurn;
  }

  /** Every slot stepped once. */
  function Ticked<P>(slots: seq<Slot<P>>, now: int): (r: seq<Slot<P>>)
    ensures |r| == |slots|
  {
    seq(|slots|, k requires 0 <= k < |slots| => StepSlot(slots[k], now).0)
  }

  function NewSlot<P>(blank: P, vt: Vtable<P>, addr: nat, now: int): (Slot<P>, Result) {
    var (c, r) := Bind(Ctx(None, Empty, 0, 0, blank, []), vt, addr, now);
    (Slot(c, now, 0, map[]), r)
  }

  /** Whether a component can be added at all. */
  predicate HasRoom<P>(slots: seq<Slot<P>>, vt: Vtable<P>) {
    |slots| < MAX_COMPONENTS && vt.channelCount <= MAX_CHANNELS
  }

  class Scheduler<P> {
    const blank: P
    var slots: seq<Slot<P>>
    var rotation: nat
    var ticks: nat
    var stats: Tally

    ghost predicate Valid()
      reads this
    {
      |slots| <= MAX_COMPONENTS && (if slots == [] then rotation == 0 else rotation < |slots|)
    }

    constructor (blank: P)
      ensures Valid() && this.blank == blank && slots == [] && ticks == 0 && stats == Tally(0, 0, 0, 0)
    {
      this.blank := blank;
      slots, rotation, ticks, stats := [], 0, 0, Tally(0, 0, 0, 0);
    }

    /** Adds a component; its slot is taken whether or not its driver could be initialised. */
    method Add(vt: Vtable<P>, addr: nat, now: int) returns (err: Err, slot: nat)
      requires Valid()
      modifies this`slots, this`stats
      ensures Valid()
      ensures if HasRoom(old(slots), vt)
              then
                && slots == old(slots) + [NewSlot(blank, vt, addr, now).0] && err == NewSlot(blank, vt, addr, now).1.err
                && (err == Ok ==> slot == |old(slots)|)
                && stats == old(stats).(faulted := old(stats).faulted + if err == Ok then 0 else 1)
              else slots == old(slots) && stats == old(stats) && (err == State || err == NoChannel)
    {
      slot := |slots|;
      if |slots| >= MAX_COMPONENTS { return State, slot; }
      if vt.channelCount > MAX_CHANNELS { return NoChannel, slot; }
      var s, r := NewSlot(blank, vt, addr, now).0, NewSlot(blank, vt, addr, now).1;
      slots := slots + [s];
      err := r.err;
      if err != Ok { stats := stats.(faulted := stats.faulted + 1); }
    }

    method StepComponent(slot: nat, now: int) returns (stepped: bool)
      requires Valid() && slot < |slots|
      modifies this`slots, this`stats
      ensures Valid()
      ensures var (s, t) := StepSlot(old(slots)[slot], now);
              slots == old(slots)[slot := s] && stats == Plus(old(stats), t.(stepped := 0)) && t.stepped == if stepped then 1 else 0
    {
      hide StartRead, Poll, Driver.Bind;
      var s := slots[slot];
      assert slots[slot := s] == slots;
      if s.ctx.vt.None? { return false; }
      if s.ctx.phase.Retired? { return false; }
      if now < s.nextDue { return false; }
      if s.ctx.phase.Warmup? || s.ctx.phase.Idle? || s.ctx.phase.Sleeping? {
        var answer := StartRead(s.ctx, now);
        s := s.(ctx := answer.0);
        if answer.1.err == NotReady {
          slots := slots[slot := s];
          return true;
        }
        if IsError(answer.1.err) {
          stats := stats.(errors := stats.errors + 1);
          if s.ctx.phase.Retired? { stats := stats.(faulted := stats.faulted + 1); }
          slots := slots[slot := s.(nextDue := now + Interval(slots[slot]))];
          return true;
        }
        slots := slots[slot := s.(cursor := 0)];
        return true;
      }
      if s.ctx.phase.Measuring? || s.ctx.phase.Ready? {
        var answer := Poll(s.ctx, s.cursor, now);
        s := s.(ctx := answer.0);
        if answer.1.err == NotReady {
          slots := slots[slot := s];
          return true;
        }
        if IsError(answer.1.err) {
          stats := stats.(errors := stats.errors + 1);
          if s.ctx.phase.Retired? { stats := stats.(faulted := stats.faulted + 1); }
          slots := slots[slot := s.(nextDue := now + Interval(slots[slot]), cursor := 0)];
          return true;
        }
        stats := stats.(readings := stats.readings + 1);
        slots := slots[slot := Collected(s, answer.1.reading, now)];
        return true;
      }
      return false;
    }

    /** One tick: whatever the rotation, each slot takes exactly one step. */
    method Tick(now: int) returns (stepped: nat)
      requires Valid()
      modifies this`slots, this`stats, this`ticks, this`rotation
      ensures Valid() && slots == Ticked(old(slots), now)
      ensures if old(slots) == [] then stepped == 0 && stats == old(stats) && ticks == old(ticks) && rotation == old(rotation)
              else
                var t := Turns(old(slots), old(rotation), |old(slots)|, now);
                && stepped == t.stepped && stats == Plus(old(stats), t.(stepped := 0))
                && ticks == old(ticks) + 1 && rotation == (old(rotation) + 1) % |old(slots)|
    {
      hide StepSlot, Turns, SlotOfTurn, TurnOfSlot, Plus;
      stepped := 0;
      if slots == [] { return; }
      ticks := ticks + 1;
      ghost var was := slots;
      var count := |slots|;
      NoTurns(was, rotation, now, stats);
      for i := 0 to count
        invariant Valid() && |slots| == count && rotation == old(rotation) && ticks == old(ticks) + 1
        invariant forall k :: 0 <= k < count ==>
                                slots[k] == if TurnOfSlot(rotation, k, count) < i then StepSlot(was[k], now).0 else was[k]
        invariant stepped == Turns(was, rotation, i, now).stepped
        invariant stats == Plus(old(stats), Turns(was, rotation, i, now).(stepped := 0))
      {
        TurnsAreSlots(rotation, i, count);
        var slot := SlotOfTurn(rotation, i, count);
        var did := StepComponent(slot, now);
        if did { stepped := stepped + 1; }
        OneMoreTurn(was, rotation, i, now, old(stats));
      }
      rotation := (rotation + 1) % count;
    }
  }

  // ---- one component cannot disturb another ---------------------------------------------

  datatype Event<!P> = Added(vt: Vtable<P>, addr: nat, at: int) | TickedAt(at: int)

  /** The slots after a run of additions and ticks. */
  function Slots<P>(blank: P, es: seq<Event<P>>): seq<Slot<P>> {
    if es == [] then [] else
      var before := Slots(blank, es[..|es| - 1]);
      match es[|es| - 1]
      case Added(vt, addr, at) => if HasRoom(before, vt) then before + [NewSlot(blank, vt, addr, at).0] else before
      case TickedAt(at) => Ticked(before, at)
  }

  /** There are never more than eight slots, and none whose driver has more than four channels. */
  lemma {:induction false} SlotsFit<P>(blank: P, es: seq<Event<P>>)
    ensures var slots := Slots(blank, es);
            |slots| <= 8 && forall k :: 0 <= k < |slots| && slots[k].ctx.vt.Some? ==> slots[k].ctx.vt.value.channelCount <= 4
    decreases |es|
  {
    hide StepSlot, NewSlot;
    if es != [] {
      SlotsFit(blank, es[..|es| - 1]);
      var slots, e := Slots(blank, es[..|es| - 1]), es[|es| - 1];
      forall k, now | 0 <= k < |slots|
        ensures StepSlot(slots[k], now).0.ctx.vt == slots[k].ctx.vt
      {
        StepKeepsDriver(slots[k], now);
      }
      if e.Added? { NewSlotDriver(blank, e.vt, e.addr, e.at); }
    }
  }

  lemma StepKeepsDriver<P>(s: Slot<P>, now: int)
    ensures StepSlot(s, now).0.ctx.vt == s.ctx.vt
  {
    hide OpTimeoutMs, ElapsedMs;
  }

  lemma NewSlotDriver<P>(blank: P, vt: Vtable<P>, addr: nat, at: int)
    ensures var s := NewSlot(blank, vt, addr, at).0; s.ctx.vt == None || s.ctx.vt == Some(vt)
  {
  }

  /** And a component is added whenever that allows it. */
  lemma AddedIff<P>(blank: P, es: seq<Event<P>>, vt: Vtable<P>, addr: nat, at: int)
    ensures |Slots(blank, es + [Added(vt, addr, at)])| > |Slots(blank, es)| <==> |Slots(blank, es)| < 8 && vt.channelCount <= 4
  {
    assert (es + [Event<P>.Added(vt, addr, at)])[..|es|] == es;
  }

  function OnlyTicks<P>(es: seq<Event<P>>): seq<Event<P>> {
    if es == [] then [] else
      OnlyTicks(es[..|es| - 1]) + if es[|es| - 1].TickedAt? then [es[|es| - 1]] else []
  }

  /** One component on its own: a step at each tick. */
  function Solo<P>(s: Slot<P>, es: seq<Event<P>>): Slot<P> {
    if es == [] then s else
      var before := Solo(s, es[..|es| - 1]);
      match es[|es| - 1]
      case TickedAt(at) => StepSlot(before, at).0
      case Added(_, _, _) => before
  }

  /**
   * Whatever was added before or is added later, and however the others behave, a component's
   * context, due time, cursor and readings are those of a scheduler that holds nothing else.
   */
  lemma Separate<P>(blank: P, before: seq<Event<P>>, vt: Vtable<P>, addr: nat, at: int, after: seq<Event<P>>)
    requires HasRoom(Slots(blank, before), vt)
    ensures var k := |Slots(blank, before)|;
            var added := Added(vt, addr, at);
            && k < |Slots(blank, before + [added] + after)| && |Slots(blank, [added] + OnlyTicks(after))| == 1
            && Slots(blank, before + [added] + after)[k] == Slots(blank, [added] + OnlyTicks(after))[0]
  {
    var added := Added(vt, addr, at);
    var s := NewSlot(blank, vt, addr, at).0;
    SlotIsSolo(blank, before, added, after);
    assert [] + [added] + OnlyTicks(after) == [added] + OnlyTicks(after);
    SlotIsSolo(blank, [], added, OnlyTicks(after));
    TicksStay(blank, added, after);
    SoloTicks(s, after);
  }

  lemma {:induction false} SlotIsSolo<P>(blank: P, before: seq<Event<P>>, added: Event<P>, after: seq<Event<P>>)
    requires added.Added? && HasRoom(Slots(blank, before), added.vt)
    ensures var k := |Slots(blank, before)|; var all := Slots(blank, before + [added] + after);
            k < |all| && all[k] == Solo(NewSlot(blank, added.vt, added.addr, added.at).0, after)
    decreases |after|
  {
    hide StepSlot, NewSlot;
    var all := before + [added] + after;
    if after == [] {
      assert all == before + [added];
      assert all[..|all| - 1] == before;
    } else {
      assert all[..|all| - 1] == before + [added] + after[..|after| - 1];
      SlotIsSolo(blank, before, added, after[..|after| - 1]);
    }
  }

  lemma {:induction false} SoloTicks<P>(s: Slot<P>, es: seq<Event<P>>)
    ensures Solo(s, OnlyTicks(es)) == Solo(s, es)
    decreases |es|
  {
    hide StepSlot;
    if es != [] {
      var init := es[..|es| - 1];
      SoloTicks(s, init);
      var ticks := OnlyTicks(init);
      if es[|es| - 1].TickedAt? {
        assert (ticks + [es[|es| - 1]])[..|ticks|] == ticks;
      } else {
        assert ticks + [] == ticks;
      }
    }
  }

  lemma {:induction false} TicksStay<P>(blank: P, added: Event<P>, es: seq<Event<P>>)
    requires added.Added? && HasRoom(Slots(blank, []), added.vt)
    ensures |Slots(blank, [added] + OnlyTicks(es))| == 1
    decreases |es|
  {
    hide StepSlot, NewSlot;
    if es == [] {
      assert [added] + [] == [added];
      assert [added][..0] == [];
    } else {
      var init := OnlyTicks(es[..|es| - 1]);
      TicksStay(blank, added, es[..|es| - 1]);
      if es[|es| - 1].TickedAt? {
        var all := [added] + (init + [es[|es| - 1]]);
        assert all[..|all| - 1] == [added] + init;
      } else {
        assert init + [] == init;
      }
    }
  }

  // ---- what is collected is what it says ---------------------------------------------------

  /** Readings are kept under their own channel, and the channel to ask next is one the driver has. */
  predicate Labelled<P>(s: Slot<P>, vt: Vtable<P>) {
    s.cursor < vt.channelCount && forall ch :: ch in s.latest ==> ch < vt.channelCount && s.latest[ch].channel == ch
  }

  /**
   * Whatever a driver writes in a reading, the scheduler files it under the channel it asked for, and
   * the rest of it as the driver gave it; nothing else is ever filed; and it goes on to the next
   * channel the driver has, or waits for an interval from the last.
   */
  lemma {:induction false} ReadingsAreLabelled<P>(blank: P, vt: Vtable<P>, addr: nat, at: int, es: seq<Event<P>>)
    requires 0 < vt.channelCount <= MAX_CHANNELS && vt.poll.Some?
    ensures var s := Solo(NewSlot(blank, vt, addr, at).0, es);
            Labelled(s, vt) && s.ctx.vt == Some(vt)
    ensures es != [] && es[|es| - 1].TickedAt? ==>
              Files(Solo(NewSlot(blank, vt, addr, at).0, es[..|es| - 1]), vt, es[|es| - 1].at)
  {
    hide StepSlot, Files;
    if es == [] {
      NewIsLabelled(blank, vt, addr, at);
    } else {
      ReadingsAreLabelled(blank, vt, addr, at, es[..|es| - 1]);
      if es[|es| - 1].TickedAt? {
        StepLabels(Solo(NewSlot(blank, vt, addr, at).0, es[..|es| - 1]), vt, es[|es| - 1].at);
      }
    }
  }

  /** What a tick does with the readings. */
  predicate Files<P>(s: Slot<P>, vt: Vtable<P>, now: int)
    requires vt.poll.Some?
  {
    var (t, tally) := StepSlot(s, now);
    var reading := vt.poll.value(s.ctx.scratch, s.cursor).2;
    if tally.readings == 0 then t.latest == s.latest else
      && t.latest == s.latest[s.cursor := reading.(channel := s.cursor)]
      && (if s.cursor + 1 < vt.channelCount then t.cursor == s.cursor + 1 && t.nextDue == s.nextDue
          else t.cursor == 0 && t.nextDue == now + vt.minIntervalMs * 1000)
  }

  lemma NewIsLabelled<P>(blank: P, vt: Vtable<P>, addr: nat, at: int)
    requires vt.channelCount > 0 && vt.poll.Some?
    ensures Labelled(NewSlot(blank, vt, addr, at).0, vt) && NewSlot(blank, vt, addr, at).0.ctx.vt == Some(vt)
  {
  }

  lemma StepLabels<P>(s: Slot<P>, vt: Vtable<P>, now: int)
    requires 0 < vt.channelCount <= MAX_CHANNELS && vt.poll.Some? && Labelled(s, vt) && s.ctx.vt == Some(vt)
    ensures Labelled(StepSlot(s, now).0, vt) && StepSlot(s, now).0.ctx.vt == Some(vt) && Files(s, vt, now)
  {
    hide OpTimeoutMs, ElapsedMs;
  }

  // ---- a measurement is a start and one poll of each channel ------------------------------

  /** Every start is accepted and every poll has a reading. */
  ghost predicate Healthy<P(!new)>(vt: Vtable<P>) {
    && 0 < vt.channelCount <= MAX_CHANNELS && vt.poll.Some?
    && (vt.startRead.Some? ==> forall p :: vt.startRead.value(p).1 == Ok)
    && (forall p, channel :: vt.poll.value(p, channel).1 == Ok)
  }

  function StartCalls<P>(vt: Vtable<P>): seq<Call> {
    if vt.startRead.Some? then [StartCall] else []
  }

  /** One poll of each of the first `n` channels, in order. */
  function PollCalls(n: nat): (cs: seq<Call>)
    ensures |cs| == n
  {
    if n == 0 then [] else PollCalls(n - 1) + [PollCall(n - 1)]
  }

  /** The driver's own state before it is polled for channel `ch`, if polling began with `p`. */
  function PolledTo<P>(vt: Vtable<P>, p: P, ch: nat): P
    requires vt.poll.Some?
  {
    if ch == 0 then p else vt.poll.value(PolledTo(vt, p, ch - 1), ch - 1).0
  }

  function Started<P>(vt: Vtable<P>, p: P): P {
    if vt.startRead.Some? then vt.startRead.value(p).0 else p
  }

  /** What the driver answers for channel `ch`. */
  function ReadingOf<P>(vt: Vtable<P>, p: P, ch: nat): Reading
    requires vt.poll.Some?
  {
    vt.poll.value(PolledTo(vt, p, ch), ch).2.(channel := ch)
  }

  function TicksAt<P>(ts: seq<int>): (es: seq<Event<P>>)
    ensures |es| == |ts|
  {
    if ts == [] then [] else TicksAt(ts[..|ts| - 1]) + [TickedAt(ts[|ts| - 1])]
  }

  lemma SoloTick<P>(s: Slot<P>, ts: seq<int>)
    requires ts != []
    ensures Solo(s, TicksAt(ts)) == StepSlot(Solo(s, TicksAt(ts[..|ts| - 1])), ts[|ts| - 1]).0
  {
    hide StepSlot;
    assert TicksAt<P>(ts)[..|ts| - 1] == TicksAt(ts[..|ts| - 1]);
  }

  /** A component about to be polled for its first channel. */
  ghost predicate AtFirst<P>(s: Slot<P>, vt: Vtable<P>) {
    s.ctx.vt == Some(vt) && (s.ctx.phase.Measuring? || s.ctx.phase.Ready?) && s.cursor == 0
  }

  /** The first `n` channels have been collected since `s`, and nothing else has happened. */
  ghost predicate Swept<P>(s: Slot<P>, t: Slot<P>, vt: Vtable<P>, n: nat, last: int)
    requires vt.poll.Some?
  {
    && t.ctx.vt == Some(vt) && t.ctx.calls == s.ctx.calls + PollCalls(n)
    && t.ctx.scratch == PolledTo(vt, s.ctx.scratch, n)
    && (forall ch :: 0 <= ch < n ==> ch in t.latest && t.latest[ch] == ReadingOf(vt, s.ctx.scratch, ch))
    && (forall ch :: ch !in s.latest && n <= ch ==> ch !in t.latest)
    && (if n == 0 then AtFirst(t, vt) else t.ctx.phase.Ready?)
    && (if n < vt.channelCount then t.cursor == n && t.nextDue == s.nextDue
        else t.cursor == 0 && t.nextDue == last + vt.minIntervalMs * 1000)
  }

  /**
   * Polling on: one tick after the other, each at or past the due time, collects one channel after the
   * other, until all are in; what is filed is what the driver answered, and the interval is
   * counted from the last.
   */
  lemma {:induction false} PollsSweep<P(!new)>(s: Slot<P>, vt: Vtable<P>, ts: seq<int>)
    requires Healthy(vt) && AtFirst(s, vt) && |ts| <= vt.channelCount
    requires forall i :: 0 <= i < |ts| ==> ts[i] >= s.nextDue
    ensures Swept(s, Solo(s, TicksAt(ts)), vt, |ts|, if ts == [] then 0 else ts[|ts| - 1])
    decreases |ts|
  {
    hide StepSlot;
    if ts == [] {
      assert s.ctx.calls + [] == s.ctx.calls;
    } else {
      var n := |ts| - 1;
      PollsSweep(s, vt, ts[..n]);
      SoloTick(s, ts);
      PollOne(s, Solo(s, TicksAt(ts[..n])), vt, n, if n == 0 then 0 else ts[n - 1], ts[n]);
    }
  }

  lemma PollOne<P(!new)>(s: Slot<P>, t: Slot<P>, vt: Vtable<P>, n: nat, last: int, now: int)
    requires Healthy(vt) && Swept(s, t, vt, n, last) && n < vt.channelCount && now >= s.nextDue
    ensures Swept(s, StepSlot(t, now).0, vt, n + 1, now)
  {
    hide StepSlot, Healthy, Interval;
    PollHealthy(t, vt, now);
    assert s.ctx.calls + PollCalls(n) + [PollCall(n)] == s.ctx.calls + PollCalls(n + 1);
  }

  lemma PollHealthy<P(!new)>(s: Slot<P>, vt: Vtable<P>, now: int)
    requires Healthy(vt) && s.ctx.vt == Some(vt) && (s.ctx.phase.Measuring? || s.ctx.phase.Ready?)
    requires now >= s.nextDue && s.cursor < vt.channelCount
    ensures vt.poll.Some?
    ensures var t := StepSlot(s, now).0; var (p, _, reading) := vt.poll.value(s.ctx.scratch, s.cursor);
            && t.ctx.vt == s.ctx.vt && t.ctx.phase.Ready? && t.ctx.scratch == p && t.ctx.calls == s.ctx.calls + [PollCall(s.cursor)]
            && t.latest == s.latest[s.cursor := reading.(channel := s.cursor)]
            && (if s.cursor + 1 < vt.channelCount then t.cursor == s.cursor + 1 && t.nextDue == s.nextDue
                else t.cursor == 0 && t.nextDue == now + vt.minIntervalMs * 1000)
  {
    hide OpTimeoutMs, ElapsedMs;
  }

  /**
   * A whole measurement of a healthy driver: a start, then every channel once, in order; every
   * channel's latest reading is then what the driver answered, and nothing is called again before an
   * interval from the last poll is over.
   */
  lemma Measurement<P(!new)>(s: Slot<P>, vt: Vtable<P>, ts: seq<int>, later: seq<int>)
    requires Healthy(vt) && s.ctx.vt == Some(vt) && s.ctx.phase.Idle? && |ts| == vt.channelCount + 1
    requires forall i :: 0 <= i < |ts| ==> ts[i] >= s.nextDue
    requires forall i :: 0 <= i < |later| ==> later[i] < ts[|ts| - 1] + vt.minIntervalMs * 1000
    ensures var t := Solo(s, TicksAt(ts + later));
            && t.ctx.calls == s.ctx.calls + StartCalls(vt) + PollCalls(vt.channelCount)
            && t.ctx.phase.Ready? && t.cursor == 0 && t.nextDue == ts[|ts| - 1] + vt.minIntervalMs * 1000
            && forall ch :: 0 <= ch < vt.channelCount ==>
                              ch in t.latest && t.latest[ch] == ReadingOf(vt, Started(vt, s.ctx.scratch), ch)
  {
    hide StepSlot;
    var began := StepSlot(s, ts[0]).0;
    BeginsToMeasure(s, vt, ts[0]);
    SoloFirst(s, ts);
    PollsSweep(began, vt, ts[1..]);
    NotDueYet(s, ts, later);
  }

  lemma BeginsToMeasure<P(!new)>(s: Slot<P>, vt: Vtable<P>, now: int)
    requires Healthy(vt) && s.ctx.vt == Some(vt) && s.ctx.phase.Idle? && now >= s.nextDue
    ensures var t := StepSlot(s, now).0;
            && AtFirst(t, vt) && t.nextDue == s.nextDue && t.latest == s.latest
            && t.ctx.calls == s.ctx.calls + StartCalls(vt) && t.ctx.scratch == Started(vt, s.ctx.scratch)
  {
    assert s.ctx.calls + [] == s.ctx.calls;
  }

  lemma {:induction false} SoloFirst<P>(s: Slot<P>, ts: seq<int>)
    requires ts != []
    ensures Solo(s, TicksAt(ts)) == Solo(StepSlot(s, ts[0]).0, TicksAt(ts[1..]))
    decreases |ts|
  {
    hide StepSlot;
    var n := |ts| - 1;
    SoloTick(s, ts);
    if n > 0 {
      SoloFirst(s, ts[..n]);
      SoloTick(StepSlot(s, ts[0]).0, ts[1..]);
      assert ts[..n][1..] == ts[1..][..n - 1];
    }
  }

  lemma {:induction false} NotDueYet<P>(s: Slot<P>, ts: seq<int>, later: seq<int>)
    requires forall i :: 0 <= i < |later| ==> later[i] < Solo(s, TicksAt(ts)).nextDue
    ensures Solo(s, TicksAt(ts + later)) == Solo(s, TicksAt(ts))
    decreases |later|
  {
    hide Solo;
    if later == [] {
      assert ts + [] == ts;
    } else {
      var n := |later| - 1;
      NotDueYet(s, ts, later[..n]);
      assert (ts + later)[..|ts| + n] == ts + later[..n];
      SoloTick(s, ts + later);
    }
  }

  /**
   * A component that has completed a sweep is not started again: the next one polls the same
   * measurement once more, channel by channel.
   */
  lemma NextSweep<P(!new)>(s: Slot<P>, vt: Vtable<P>, ts: seq<int>)
    requires Healthy(vt) && s.ctx.vt == Some(vt) && s.ctx.phase.Ready? && s.cursor == 0 && |ts| == vt.channelCount
    requires forall i :: 0 <= i < |ts| ==> ts[i] >= s.nextDue
    ensures var t := Solo(s, TicksAt(ts));
            && t.ctx.calls == s.ctx.calls + PollCalls(vt.channelCount)
            && t.ctx.phase.Ready? && t.cursor == 0 && t.nextDue == ts[|ts| - 1] + vt.minIntervalMs * 1000
  {
    PollsSweep(s, vt, ts);
  }

  /** What a run of ticks adds to the counters. */
  function SoloTally<P>(s: Slot<P>, es: seq<Event<P>>): Tally {
    if es == [] then Tally(0, 0, 0, 0) else
      var n := |es| - 1;
      match es[n]
      case TickedAt(at) => Plus(SoloTally(s, es[..n]), StepSlot(Solo(s, es[..n]), at).1)
      case Added(_, _, _) => SoloTally(s, es[..n])
  }

  predicate InMeasurement<P>(s: Slot<P>) {
    s.ctx.phase.Measuring? || s.ctx.phase.Ready?
  }

  /**
   * Whatever the driver: once a measurement has begun, it goes on for as long as no poll fails,
   * and the driver's start is not called again. So each start after the first takes a failure.
   */
  lemma {:induction false} NoFreshStart<P>(s: Slot<P>, es: seq<Event<P>>)
    requires s.ctx.vt.Some? && InMeasurement(s) && SoloTally(s, es).errors == 0
    ensures var t := Solo(s, es);
            && t.ctx.vt == s.ctx.vt && InMeasurement(t) && s.ctx.calls <= t.ctx.calls
            && forall k :: |s.ctx.calls| <= k < |t.ctx.calls| ==> t.ctx.calls[k].PollCall?
    decreases |es|
  {
    hide StepSlot;
    if es != [] {
      var n := |es| - 1;
      NoFreshStart(s, es[..n]);
      if es[n].TickedAt? {
        MeasurementStep(Solo(s, es[..n]), es[n].at);
      }
    }
  }

  lemma MeasurementStep<P>(s: Slot<P>, now: int)
    requires s.ctx.vt.Some? && InMeasurement(s)
    ensures var (t, tally) := StepSlot(s, now);
            && t.ctx.vt == s.ctx.vt && (t.ctx.calls == s.ctx.calls || t.ctx.calls == s.ctx.calls + [PollCall(s.cursor)])
            && (tally.errors == 0 ==> InMeasurement(t))
            && (tally.errors > 0 ==> t.cursor == 0 && t.nextDue == now + s.ctx.vt.value.minIntervalMs * 1000)
            && (tally.errors > 0 && s.ctx.vt.value.poll.Some? && s.cursor < s.ctx.vt.value.channelCount ==> t.ctx.phase.Idle? || t.ctx.phase.Retired?)
  {
    hide OpTimeoutMs, ElapsedMs;
  }

  /**
   * The counters tell what happened: one component retired for each count of a fault, and only
   * by an error; a reading for each successful poll; and a step for whatever ran any code or
   * might have. An error is followed by a whole interval.
   */
  lemma TallyTells<P>(s: Slot<P>, now: int)
    requires s.ctx.vt.Some? && s.ctx.vt.value.poll.Some? && s.cursor < s.ctx.vt.value.channelCount
    ensures Tells(s, now)
  {
    if s.ctx.phase.Retired? || now < s.nextDue || s.ctx.phase.Empty? {
      hide StartRead, Poll;
    } else if InMeasurement(s) {
      hide StartRead, OpTimeoutMs, ElapsedMs;
    } else {
      hide Poll, OpTimeoutMs, ElapsedMs;
    }
  }

  predicate Tells<P>(s: Slot<P>, now: int)
    requires s.ctx.vt.Some? && s.ctx.vt.value.poll.Some?
  {
    var (t, tally) := StepSlot(s, now);
    && tally.faulted == (if t.ctx.phase.Retired? && !s.ctx.phase.Retired? then 1 else 0)
    && tally.faulted <= tally.errors && tally.readings + tally.errors <= tally.stepped <= 1
    && (tally.stepped == 0 <==> s.ctx.phase.Retired? || s.ctx.phase.Empty? || now < s.nextDue)
    && (tally.stepped == 0 ==> t.ctx.calls == s.ctx.calls && t.ctx.phase == s.ctx.phase && t.nextDue == s.nextDue && t.latest == s.latest)
    && (tally.readings == 1 <==> InMeasurement(s) && |t.ctx.calls| > |s.ctx.calls|
                                 && s.ctx.vt.value.poll.value(s.ctx.scratch, s.cursor).1 == Ok)
    && (tally.errors == 1 ==> t.nextDue == now + s.ctx.vt.value.minIntervalMs * 1000)
    && (tally.errors == 0 && tally.readings == 0 ==> t.nextDue == s.nextDue)
    && (tally.errors == 0 ==> t.ctx.errors <= s.ctx.errors)
    && (s.ctx.errors < FAULT_THRESHOLD && tally.errors == 1 ==> t.ctx.errors == s.ctx.errors + 1)
  }

  // ---- silent drivers are retired in bounded time ------------------------------------------

  /** Accepts every start and never has a reading. */
  ghost predicate Stuck<P(!new)>(vt: Vtable<P>) {
    && vt.channelCount > 0 && vt.poll.Some?
    && (vt.startRead.Some? ==> forall p :: vt.startRead.value(p).1 == Ok)
    && (forall p, channel :: vt.poll.value(p, channel).1 == NotReady)
  }

  /** The ticks of a run come at most `gap` apart, the first within `gap` of `from`. */
  predicate TicksWithin<P>(from: int, es: seq<Event<P>>, gap: nat) {
    es == [] ||
    var n := |es| - 1;
    TicksWithin(from, es[..n], gap) && (es[n].TickedAt? ==> es[n].at <= LastTick(from, es[..n]) + gap)
  }

  function LastTick<P>(from: int, es: seq<Event<P>>): int {
    if es == [] then from else if es[|es| - 1].TickedAt? then es[|es| - 1].at else LastTick(from, es[..|es| - 1])
  }

  /** A whole operation deadline, in microseconds: a poll at or past it times out. */
  function DeadlineUs<P>(vt: Vtable<P>): nat {
    (OpTimeoutMs(vt) + 1) * 1000
  }

  /** When the component next does something: its warm-up ends, it is due, or its poll times out. */
  function NextEvent<P>(s: Slot<P>, vt: Vtable<P>): int {
    if s.ctx.phase.Warmup? then Max(s.nextDue, s.ctx.opStartedUs + vt.warmupMs * 1000)
    else if s.ctx.phase.Measuring? then s.ctx.opStartedUs + DeadlineUs(vt)
    else s.nextDue
  }

  /** How long after that it is retired at the latest. */
  function Remaining<P>(s: Slot<P>, vt: Vtable<P>, gap: nat): int {
    var left := FAULT_THRESHOLD - s.ctx.errors;
    if s.ctx.phase.Measuring? then (left - 1) * (DeadlineUs(vt) + vt.minIntervalMs * 1000 + 2 * gap) + gap
    else left * (DeadlineUs(vt) + 2 * gap) + (left - 1) * vt.minIntervalMs * 1000
  }

  /** The bound: the warm-up, three deadlines, two intervals and six gaps. */
  function RetirementUs<P>(vt: Vtable<P>, gap: nat): int {
    vt.warmupMs * 1000 + 3 * DeadlineUs(vt) + 2 * (vt.minIntervalMs * 1000) + 6 * gap
  }

  /** A stuck component on its way out. */
  ghost predicate OnItsWay<P>(s: Slot<P>, vt: Vtable<P>, now: int, end: int, gap: nat) {
    && s.ctx.vt == Some(vt) && s.ctx.errors <= FAULT_THRESHOLD && (s.ctx.phase.Retired? <==> s.ctx.errors >= FAULT_THRESHOLD)
    && s.cursor < vt.channelCount
    && (!s.ctx.phase.Retired? ==>
          && (s.ctx.phase.Warmup? || s.ctx.phase.Idle? || s.ctx.phase.Measuring?)
          && (s.ctx.phase.Warmup? ==> vt.warmupMs > 0)
          && (s.ctx.phase.Measuring? ==> s.nextDue <= s.ctx.opStartedUs)
          && now <= NextEvent(s, vt) && NextEvent(s, vt) + Remaining(s, vt, gap) <= end)
  }

  /**
   * A driver that accepts every start but never has a reading is retired by the first tick
   * past its warm-up, three deadlines, two intervals and five gaps, whatever the other
   * components do: the tick that retires it comes within one gap more.
   */
  lemma {:induction false} StuckIsRetired<P(!new)>(blank: P, vt: Vtable<P>, addr: nat, at: int, es: seq<Event<P>>, gap: nat)
    requires Stuck(vt) && NewSlot(blank, vt, addr, at).1.err == Ok
    requires TicksWithin(at, es, gap)
    ensures OnItsWay(Solo(NewSlot(blank, vt, addr, at).0, es), vt, LastTick(at, es), at + RetirementUs(vt, gap), gap)
    ensures LastTick(at, es) > at + RetirementUs(vt, gap) - gap ==> Solo(NewSlot(blank, vt, addr, at).0, es).ctx.phase.Retired?
  {
    hide StepSlot, DeadlineUs, NewSlot, Stuck, NextEvent, Remaining, RetirementUs;
    var s := NewSlot(blank, vt, addr, at).0;
    if es == [] {
      BoundIsOnItsWay(blank, vt, addr, at, gap);
    } else {
      var n := |es| - 1;
      StuckIsRetired(blank, vt, addr, at, es[..n], gap);
      if es[n].TickedAt? {
        StuckStep(Solo(s, es[..n]), vt, LastTick(at, es[..n]), es[n].at, at + RetirementUs(vt, gap), gap);
      }
    }
    if !Solo(s, es).ctx.phase.Retired? {
      LeavesAGap(Solo(s, es), vt, gap);
    }
  }

  lemma BoundIsOnItsWay<P(!new)>(blank: P, vt: Vtable<P>, addr: nat, at: int, gap: nat)
    requires Stuck(vt) && NewSlot(blank, vt, addr, at).1.err == Ok
    ensures OnItsWay(NewSlot(blank, vt, addr, at).0, vt, at, at + RetirementUs(vt, gap), gap)
  {
    hide DeadlineUs;
  }

  lemma LeavesAGap<P>(s: Slot<P>, vt: Vtable<P>, gap: nat)
    requires s.ctx.errors < FAULT_THRESHOLD
    ensures Remaining(s, vt, gap) >= gap
  {
    hide DeadlineUs;
  }

  lemma StuckStep<P(!new)>(s: Slot<P>, vt: Vtable<P>, last: int, now: int, end: int, gap: nat)
    requires Stuck(vt) && OnItsWay(s, vt, last, end, gap) && now <= last + gap
    ensures OnItsWay(StepSlot(s, now).0, vt, now, end, gap)
  {
    hide StepSlot, Stuck, DeadlineUs;
    if s.ctx.phase.Retired? {
      RetiredStep(s, now);
    } else if s.ctx.phase.Measuring? {
      PollStep(s, vt, now);
    } else {
      StartStep(s, vt, now);
    }
  }

  lemma RetiredStep<P>(s: Slot<P>, now: int)
    requires s.ctx.phase.Retired?
    ensures StepSlot(s, now).0 == s
  {
  }

  /** A component that is warming up or due begins to measure; before that nothing happens. */
  lemma StartStep<P(!new)>(s: Slot<P>, vt: Vtable<P>, now: int)
    requires Stuck(vt) && s.ctx.vt == Some(vt) && s.ctx.errors < FAULT_THRESHOLD
    requires s.ctx.phase.Idle? || (s.ctx.phase.Warmup? && vt.warmupMs > 0)
    ensures var t := StepSlot(s, now).0;
            && t.ctx.vt == s.ctx.vt && t.ctx.errors == s.ctx.errors && t.nextDue == s.nextDue
            && if now < NextEvent(s, vt) then t.ctx.phase == s.ctx.phase && t.ctx.opStartedUs == s.ctx.opStartedUs && t.cursor == s.cursor
               else t.ctx.phase.Measuring? && t.ctx.opStartedUs == now && t.cursor == 0 && s.nextDue <= now
  {
    hide DeadlineUs, OpTimeoutMs;
  }

  /** A measurement is polled without effect until its deadline, and then fails. */
  lemma PollStep<P(!new)>(s: Slot<P>, vt: Vtable<P>, now: int)
    requires Stuck(vt) && s.ctx.vt == Some(vt) && s.ctx.errors < FAULT_THRESHOLD && s.ctx.phase.Measuring?
    requires s.cursor < vt.channelCount && s.nextDue <= s.ctx.opStartedUs
    ensures var t := StepSlot(s, now).0;
            && t.ctx.vt == s.ctx.vt && t.ctx.opStartedUs == s.ctx.opStartedUs
            && if now < NextEvent(s, vt) then t.ctx.phase.Measuring? && t.ctx.errors == s.ctx.errors && t.cursor == s.cursor && t.nextDue == s.nextDue
               else
                 && t.ctx.errors == s.ctx.errors + 1 && t.cursor == 0 && t.nextDue == now + vt.minIntervalMs * 1000
                 && t.ctx.phase == if s.ctx.errors + 1 >= FAULT_THRESHOLD then Retired else Idle
  {
    NotReadyIff(s.ctx, s.cursor, now);
    hide ElapsedMs, OpTimeoutMs;
  }
}
