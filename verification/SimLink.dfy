/**
 * The deterministic link simulator: frames queue with a due time and an order number, and a
 * seeded generator decides what is dropped, damaged, held back or doubled.
 */
module SimLink {
  import opened Bytes

  datatype Side = A | B

  datatype Impaired = Both | OnlyAToB | OnlyBToA

  datatype Profile = Profile(lossPct: nat, corruptPct: nat, reorderPct: nat, duplicatePct: nat,
                             latencyMs: nat, jitterMs: nat, impaired: Impaired)

  datatype Pending = Pending(dueMs: int, ordinal: nat, target: Side, payload: seq<byte>)

  datatype Counters = Counters(sent: nat, delivered: nat, dropped: nat, corrupted: nat, reordered: nat, duplicated: nat)

  /** A 32-bit xorshift generator. */
  function NextRandom(rng: bv32): bv32 {
    var a := rng ^ (rng << 13);
    var b := a ^ (a >> 17);
    b ^ (b << 5)
  }

  function Unsigned(rng: bv32): nat {
    rng as nat
  }

  function Draw(rng: bv32, n: nat): (k: nat)
    requires n > 0
    ensures k < n
  {
    var v := Unsigned(rng);
    v % n
  }

  /** The byte with one bit set. */
  function OneBit(k: nat): (b: byte)
    requires k < 8
    ensures b != 0
  {
    match k
    case 0 => 0x01
    case 1 => 0x02
    case 2 => 0x04
    case 3 => 0x08
    case 4 => 0x10
    case 5 => 0x20
    case 6 => 0x40
    case _ => 0x80
  }

  predicate IsImpaired(p: Profile, target: Side) {
    p.impaired.Both? || (if p.impaired.OnlyAToB? then target.B? else target.A?)
  }

  /** The longest a frame can be in flight: latency, jitter, one hold-back and the copy behind it. */
  function MaxDelayMs(p: Profile): nat {
    2 * p.latencyMs + p.jitterMs + 2
  }

  /** One byte of the frame changed. */
  predicate Damaged(frame: seq<byte>, payload: seq<byte>) {
    |payload| == |frame| && exists i :: 0 <= i < |frame| && payload[i] != frame[i] && payload == frame[i := payload[i]]
  }

  /** What may be queued for a frame sent at `now`: itself or one byte of it changed, due within the longest delay. */
  predicate Copy(e: Pending, p: Profile, now: int, target: Side, frame: seq<byte>) {
    && e.target == target
    && now <= e.dueMs <= now + MaxDelayMs(p)
    && (e.payload == frame || Damaged(frame, e.payload))
  }

  lemma CopyIsTimely(e: Pending, p: Profile, now: int, target: Side, frame: seq<byte>)
    requires Copy(e, p, now, target, frame)
    ensures e.target == target && now <= e.dueMs <= now + MaxDelayMs(p)
  {
  }

  predicate Before(x: Pending, y: Pending) {
    x.dueMs < y.dueMs || (x.dueMs == y.dueMs && x.ordinal <= y.ordinal)
  }

  /** By due time, then by the order of sending. */
  predicate InOrder(s: seq<Pending>) {
    forall i, j :: 0 <= i < j < |s| ==> s[i].dueMs < s[j].dueMs || (s[i].dueMs == s[j].dueMs && s[i].ordinal <= s[j].ordinal)
  }

  function Insert(s: seq<Pending>, e: Pending): seq<Pending> {
    if s == [] || Before(e, s[0]) then [e] + s else [s[0]] + Insert(s[1..], e)
  }

  /** The frames in delivery order. */
  function Sorted(s: seq<Pending>): (r: seq<Pending>) {
    if s == [] then [] else Insert(Sorted(s[1..]), s[0])
  }

  predicate Chain(s: seq<Pending>) {
    forall i, j :: 0 <= i < j < |s| ==> Before(s[i], s[j])
  }

  lemma {:induction false} InsertKeeps(s: seq<Pending>, e: Pending)
    requires Chain(s)
    ensures Chain(Insert(s, e)) && multiset(Insert(s, e)) == multiset(s) + multiset{e}
  {
    if s == [] || Before(e, s[0]) {
    } else {
      assert s == [s[0]] + s[1..];
      InsertKeeps(s[1..], e);
      var r := Insert(s[1..], e);
      forall j | 0 <= j < |r|
        ensures Before(s[0], r[j])
      {
        assert r[j] in multiset(r);
        assert r[j] in multiset(s[1..]) + multiset{e};
      }
    }
  }

  /** Sorting reorders and loses nothing. */
  lemma {:induction false} SortedSorts(s: seq<Pending>)
    ensures Chain(Sorted(s)) && InOrder(Sorted(s)) && multiset(Sorted(s)) == multiset(s)
  {
    if s != [] {
      assert s == [s[0]] + s[1..];
      SortedSorts(s[1..]);
      InsertKeeps(Sorted(s[1..]), s[0]);
    }
  }

  function Due(queue: seq<Pending>, now: int): (r: seq<Pending>)
    ensures forall e :: e in r <==> e in queue && e.dueMs <= now
  {
    if queue == [] then [] else (if queue[0].dueMs <= now then [queue[0]] else []) + Due(queue[1..], now)
  }

  function NotDue(queue: seq<Pending>, now: int): (r: seq<Pending>)
    ensures forall e :: e in r <==> e in queue && e.dueMs > now
  {
    if queue == [] then [] else (if queue[0].dueMs > now then [queue[0]] else []) + NotDue(queue[1..], now)
  }

  lemma {:induction false} Partition(queue: seq<Pending>, now: int)
    ensures multiset(Due(queue, now)) + multiset(NotDue(queue, now)) == multiset(queue)
  {
    if queue != [] {
      assert queue == [queue[0]] + queue[1..];
      Partition(queue[1..], now);
    }
  }

  // ---- what becomes of a frame ----------------------------------------------------------

  /** A link between two calls. */
  datatype Link = Link(rng: bv32, queue: seq<Pending>, ordinal: nat, clockMs: nat, counters: Counters)

  /** A decision at a rate of so many percent; at rate nought nothing is drawn. */
  function Chance(rng: bv32, percent: nat): (bv32, bool) {
    if percent == 0 then (rng, false) else (NextRandom(rng), Draw(NextRandom(rng), 100) < percent)
  }

  /** The copy that travels, and whether one bit of it was flipped. */
  function Corrupted(p: Profile, rng: bv32, frame: seq<byte>): (bv32, seq<byte>, bool) {
    var (r, hit) := if frame == [] then (rng, false) else Chance(rng, p.corruptPct);
    if !hit then (r, frame, false) else
      var index := Draw(NextRandom(r), |frame|);
      var r' := NextRandom(NextRandom(r));
      (r', frame[index := frame[index] ^ OneBit(Draw(r', 8))], true)
  }

  /** How long it travels, and whether it was held back behind the next one. */
  function Delayed(p: Profile, rng: bv32): (bv32, nat, bool) {
    var (r, extra) := if p.jitterMs == 0 then (rng, 0) else (NextRandom(rng), Draw(NextRandom(rng), p.jitterMs));
    var (r', held) := Chance(r, p.reorderPct);
    (r', p.latencyMs + extra + if held then p.latencyMs + 1 else 0, held)
  }

  /** A copy and, at the profile's rate, its double a millisecond later. */
  function Queued(p: Profile, k: Link, e: Pending): Link {
    var (r, twice) := Chance(k.rng, p.duplicatePct);
    var one := k.(rng := r, queue := k.queue + [e]);
    if !twice then one else
      one.(queue := one.queue + [e.(dueMs := e.dueMs + 1, ordinal := k.ordinal)], ordinal := k.ordinal + 1,
           counters := k.counters.(duplicated := k.counters.duplicated + 1))
  }

  function Lost(k: Link): Link {
    k.(counters := k.counters.(dropped := k.counters.dropped + 1))
  }

  function Sent(k: Link): Link {
    k.(ordinal := k.ordinal + 1, counters := k.counters.(sent := k.counters.sent + 1))
  }

  /** Everything the link does with a frame, given the state of its generator. */
  function Enqueued(p: Profile, before: Link, target: Side, frame: seq<byte>): Link {
    var k := Sent(before);
    if !IsImpaired(p, target) then
      k.(queue := k.queue + [Pending(k.clockMs + p.latencyMs, before.ordinal, target, frame)])
    else
      var (r, lost) := Chance(k.rng, p.lossPct);
      if lost then Lost(k.(rng := r)) else
        var (r1, payload, flipped) := Corrupted(p, r, frame);
        var (r2, delay, held) := Delayed(p, r1);
        var c := k.counters.(corrupted := k.counters.corrupted + (if flipped then 1 else 0),
                             reordered := k.counters.reordered + (if held then 1 else 0));
        Queued(p, k.(rng := r2, counters := c), Pending(k.clockMs + delay, before.ordinal, target, payload))
  }

  lemma CorruptedMeans(p: Profile, rng: bv32, frame: seq<byte>)
    ensures var (_, payload, flipped) := Corrupted(p, rng, frame);
            && (flipped ==> Damaged(frame, payload) && OneBitFlipped(frame, payload) && p.corruptPct > 0)
            && (!flipped ==> payload == frame)
  {
    hide NextRandom, Draw, OneBit, Damaged;
    hide OneBitFlipped;
    forall index, k: nat | 0 <= index < |frame| && k < 8
      ensures Damaged(frame, frame[index := frame[index] ^ OneBit(k)]) && OneBitFlipped(frame, frame[index := frame[index] ^ OneBit(k)])
    {
      OneBitIs(k);
      FlipDamages(frame, index, OneBit(k));
    }
  }

  const BITS: set<byte> := {0x01, 0x02, 0x04, 0x08, 0x10, 0x20, 0x40, 0x80}

  /** One bit of one byte is the other way round. */
  predicate OneBitFlipped(frame: seq<byte>, payload: seq<byte>) {
    exists i, bit :: 0 <= i < |frame| && bit in BITS && payload == frame[i := frame[i] ^ bit]
  }

  lemma OneBitIs(k: nat)
    requires k < 8
    ensures OneBit(k) in BITS && OneBit(0) == 1 && (k < 7 ==> OneBit(k + 1) == OneBit(k) << 1)
  {
  }

  lemma FlipDamages(frame: seq<byte>, index: nat, bit: byte)
    requires index < |frame| && bit in BITS
    ensures Damaged(frame, frame[index := frame[index] ^ bit]) && OneBitFlipped(frame, frame[index := frame[index] ^ bit])
  {
    var payload := frame[index := frame[index] ^ bit];
    FlipChanges(frame[index], bit);
    assert payload[index] != frame[index] && payload == frame[index := payload[index]];
  }

  lemma DelayedMeans(p: Profile, rng: bv32)
    ensures Delayed(p, rng).1 < MaxDelayMs(p)
  {
    hide NextRandom, Draw;
  }

  /** Every frame sent, and every extra copy, is delivered, dropped or in flight. */
  predicate InBalance(k: Link) {
    k.counters.sent + k.counters.duplicated == k.counters.delivered + k.counters.dropped + |k.queue|
  }

  predicate AllCopies(queue: seq<Pending>, from: nat, p: Profile, now: int, target: Side, frame: seq<byte>) {
    forall i :: from <= i < |queue| ==> Copy(queue[i], p, now, target, frame) && (p.corruptPct == 0 ==> queue[i].payload == frame)
  }

  /** At most one copy and its double are queued behind what was there, and nothing is lost without being counted. */
  predicate Took(p: Profile, before: Link, after: Link, target: Side, frame: seq<byte>) {
    && after.clockMs == before.clockMs && after.counters.sent == before.counters.sent + 1
    && after.counters.delivered == before.counters.delivered
    && (InBalance(before) ==> InBalance(after))
    && before.queue <= after.queue && |after.queue| <= |before.queue| + 2
    && AllCopies(after.queue, |before.queue|, p, before.clockMs, target, frame)
    && (p.lossPct == 0 ==> |after.queue| > |before.queue|)
  }

  /**
   * Whatever is drawn, what is queued is the frame or one byte of it changed, due within the
   * longest delay; and a link that never loses queues one.
   */
  lemma EnqueuedMeans(p: Profile, before: Link, target: Side, frame: seq<byte>)
    ensures Took(p, before, Enqueued(p, before, target, frame), target, frame)
  {
    hide NextRandom, Draw, Corrupted, Delayed, Damaged, IsImpaired;
    var (r, lost) := Chance(before.rng, p.lossPct);
    CorruptedMeans(p, r, frame);
    DelayedMeans(p, Corrupted(p, r, frame).0);
  }

  // ---- the generator --------------------------------------------------------------------

  function After(rng: bv32, n: nat): bv32 {
    if n == 0 then rng else NextRandom(After(rng, n - 1))
  }

  /** The generator reaches nought, where it would stay, exactly when it starts there. */
  lemma {:induction false} StuckIff(rng: bv32, n: nat)
    ensures After(rng, n) == 0 <==> rng == 0
  {
    if n > 0 {
      StuckIff(rng, n - 1);
      NoughtToNought(After(rng, n - 1));
    }
  }

  lemma NoughtToNought(r: bv32)
    ensures NextRandom(r) == 0 <==> r == 0
  {
    LeftThirteen(r);
    var a := r ^ (r << 13);
    RightSeventeen(a);
    LeftFive(a ^ (a >> 17));
  }

  lemma LeftThirteen(r: bv32)
    ensures r ^ (r << 13) == 0 <==> r == 0
  {
  }

  lemma RightSeventeen(r: bv32)
    ensures r ^ (r >> 17) == 0 <==> r == 0
  {
  }

  lemma LeftFive(r: bv32)
    ensures r ^ (r << 5) == 0 <==> r == 0
  {
  }

  /** Seed nought is refused for that, but a multiple of 2^32 is not: every draw is nought. */
  lemma StuckSeed(seed: int, n: nat)
    requires seed % TWO32 == 0
    ensures After(Seeded(seed), n) == 0
  {
    StuckIff(Seeded(seed), n);
  }

  function Seeded(seed: int): bv32 {
    (seed % TWO32) as bv32
  }

  class SimLink {
    const profile: Profile
    var rng: bv32
    var queue: seq<Pending>
    var ordinal: nat
    var clockMs: nat
    var counters: Counters

    ghost predicate Balanced()
      reads this
    {
      InBalance(State())
    }

    ghost function State(): Link
      reads this
    {
      Link(rng, queue, ordinal, clockMs, counters)
    }

    constructor (profile: Profile, seed: int)
      requires seed != 0
      ensures this.profile == profile && Balanced() && State() == Link(Seeded(seed), [], 0, 0, Counters(0, 0, 0, 0, 0, 0))
    {
      this.profile := profile;
      rng := Seeded(seed);
      queue, ordinal, clockMs := [], 0, 0;
      counters := Counters(0, 0, 0, 0, 0, 0);
    }

    method Random(n: nat) returns (k: nat)
      requires n > 0
      modifies this`rng
      ensures rng == NextRandom(old(rng)) && k == Draw(rng, n)
    {
      rng := NextRandom(rng);
      k := Draw(rng, n);
    }

    method Percent(rate: nat) returns (hit: bool)
      modifies this`rng
      ensures (rng, hit) == Chance(old(rng), rate)
    {
      if rate == 0 { return false; }
      var percent := Random(100);
      hit := percent < rate;
    }

    /** Takes a frame towards one side. */
    method Enqueue(target: Side, frame: seq<byte>)
      modifies this`rng, this`queue, this`ordinal, this`counters
      ensures State() == Enqueued(profile, old(State()), target, frame)
      ensures Took(profile, old(State()), State(), target, frame)
    {
      hide NextRandom, Draw, IsImpaired, Corrupted, Delayed, Queued, Took;
      EnqueuedMeans(profile, State(), target, frame);
      counters := counters.(sent := counters.sent + 1);
      var mine := ordinal;
      ordinal := ordinal + 1;
      if !IsImpaired(profile, target) {
        queue := queue + [Pending(clockMs + profile.latencyMs, mine, target, frame)];
        return;
      }
      var lost := Percent(profile.lossPct);
      if lost {
        counters := counters.(dropped := counters.dropped + 1);
        return;
      }
      var payload := Damage(frame);
      var dueMs := DueTime();
      Queue(Pending(dueMs, mine, target, payload));
    }

    /** Flips one bit of a copy, at the profile's rate. */
    method Damage(frame: seq<byte>) returns (payload: seq<byte>)
      modifies this`rng, this`counters
      ensures (rng, payload) == (Corrupted(profile, old(rng), frame).0, Corrupted(profile, old(rng), frame).1)
      ensures counters == old(counters).(corrupted := old(counters).corrupted + if Corrupted(profile, old(rng), frame).2 then 1 else 0)
    {
      hide NextRandom, Draw, OneBit;
      payload := frame;
      if |frame| > 0 {
        var hit := Percent(profile.corruptPct);
        if hit {
          var index := Random(|frame|);
          var bit := Random(8);
          payload := frame[index := frame[index] ^ OneBit(bit)];
          counters := counters.(corrupted := counters.corrupted + 1);
        }
      }
    }

    method DueTime() returns (dueMs: int)
      modifies this`rng, this`counters
      ensures (rng, dueMs) == (Delayed(profile, old(rng)).0, clockMs + Delayed(profile, old(rng)).1)
      ensures counters == old(counters).(reordered := old(counters).reordered + if Delayed(profile, old(rng)).2 then 1 else 0)
    {
      hide NextRandom, Draw;
      dueMs := clockMs + profile.latencyMs;
      if profile.jitterMs > 0 {
        var extra := Random(profile.jitterMs);
        dueMs := dueMs + extra;
      }
      var held := Percent(profile.reorderPct);
      if held {
        dueMs := dueMs + profile.latencyMs + 1;
        counters := counters.(reordered := counters.reordered + 1);
      }
    }

    method Queue(e: Pending)
      modifies this`rng, this`queue, this`ordinal, this`counters
      ensures State() == Queued(profile, old(State()), e)
    {
      hide NextRandom, Draw;
      queue := queue + [e];
      var twice := Percent(profile.duplicatePct);
      if twice {
        queue := queue + [e.(dueMs := e.dueMs + 1, ordinal := ordinal)];
        ordinal := ordinal + 1;
        counters := counters.(duplicated := counters.duplicated + 1);
      }
    }

    /**
     * Moves the clock and takes what came due, in delivery order: by due time, then by send
     * order. The caller hands each to its side.
     */
    method Advance(ms: nat) returns (due: seq<Pending>)
      requires Balanced()
      modifies this`clockMs, this`queue, this`counters
      ensures Balanced()
      ensures clockMs == old(clockMs) + ms
      ensures InOrder(due) && multiset(due) + multiset(queue) == multiset(old(queue))
      ensures forall e :: e in due <==> e in old(queue) && e.dueMs <= clockMs
      ensures forall e :: e in queue <==> e in old(queue) && e.dueMs > clockMs
      ensures counters == old(counters).(delivered := old(counters).delivered + |due|)
    {
      clockMs := clockMs + ms;
      due := Due(queue, clockMs);
      ghost var taken := due;
      Partition(queue, clockMs);
      queue := NotDue(queue, clockMs);
      assert |multiset(due)| + |multiset(queue)| == |multiset(old(queue))|;
      counters := counters.(delivered := counters.delivered + |due|);
      due := Sorted(due);
      SortedSorts(taken);
      assert |multiset(due)| == |multiset(taken)|;
      forall e
        ensures e in due <==> e in taken
      {
        assert e in multiset(due) <==> e in multiset(taken);
      }
    }
  }

  lemma FlipChanges(b: byte, bit: byte)
    requires bit != 0
    ensures b ^ bit != b
  {
  }

  // ---- what the rates mean ----------------------------------------------------------------

  /** A rate of nought never hits and a hundred always does, and between them a higher one hits whenever a lower does. */
  lemma ChanceIs(rng: bv32, percent: nat, more: nat)
    ensures !Chance(rng, 0).1 && (percent >= 100 ==> Chance(rng, percent).1)
    ensures percent <= more && Chance(rng, percent).1 ==> Chance(rng, more).1
    ensures Chance(rng, percent).1 <==> Draw(NextRandom(rng), 100) + 1 <= percent
  {
    hide NextRandom, Draw;
  }

  lemma FirstDraws()
    ensures NextRandom(1) == 270_369 && NextRandom(270_369) == 67_634_689 && NextRandom(67_634_689) == 2_647_435_461
  {
  }

  /** A direction that is not impaired takes the latency and nothing else. */
  lemma Unimpaired(p: Profile, before: Link, target: Side, frame: seq<byte>)
    requires (p.impaired.OnlyAToB? && target.A?) || (p.impaired.OnlyBToA? && target.B?)
    ensures var after := Enqueued(p, before, target, frame);
            && after.queue == before.queue + [Pending(before.clockMs + p.latencyMs, before.ordinal, target, frame)]
            && after.rng == before.rng && after.ordinal == before.ordinal + 1
            && after.counters == before.counters.(sent := before.counters.sent + 1)
  {
  }

  /** The frame towards an impaired side is subject to the rates. */
  predicate Exposed(p: Profile, target: Side) {
    p.impaired.Both? || (p.impaired.OnlyAToB? && target.B?) || (p.impaired.OnlyBToA? && target.A?)
  }

  /** At a loss rate of a hundred nothing gets through, and every loss is counted. */
  lemma AllLost(p: Profile, before: Link, target: Side, frame: seq<byte>)
    requires Exposed(p, target) && p.lossPct >= 100
    ensures var after := Enqueued(p, before, target, frame);
            after.queue == before.queue && after.counters == before.counters.(sent := before.counters.sent + 1, dropped := before.counters.dropped + 1)
  {
    hide NextRandom, Draw;
  }

  /** What arrives first of a frame, and when, at the rates that leave nothing to chance. */
  lemma SureThings(p: Profile, before: Link, target: Side, frame: seq<byte>)
    requires Exposed(p, target) && p.lossPct == 0
    ensures var after := Enqueued(p, before, target, frame);
            var n := |before.queue|;
            && |after.queue| > n && after.queue[n].target == target && after.queue[n].ordinal == before.ordinal
            && (p.reorderPct == 0 ==>
                  before.clockMs + p.latencyMs <= after.queue[n].dueMs < before.clockMs + p.latencyMs + Max(p.jitterMs, 1))
            && (p.reorderPct >= 100 ==>
                  before.clockMs + 2 * p.latencyMs + 1 <= after.queue[n].dueMs < before.clockMs + 2 * p.latencyMs + 1 + Max(p.jitterMs, 1))
            && (p.corruptPct == 0 ==> after.queue[n].payload == frame && after.counters.corrupted == before.counters.corrupted)
            && (p.corruptPct >= 100 && frame != [] ==>
                  Damaged(frame, after.queue[n].payload) && after.counters.corrupted == before.counters.corrupted + 1)
            && (p.duplicatePct == 0 ==> |after.queue| == n + 1)
            && (p.duplicatePct >= 100 ==>
                  after.queue == before.queue + [after.queue[n], after.queue[n].(dueMs := after.queue[n].dueMs + 1, ordinal := before.ordinal + 1)])
            && (p.reorderPct == 0 ==> after.counters.reordered == before.counters.reordered)
            && (p.reorderPct >= 100 ==> after.counters.reordered == before.counters.reordered + 1)
            && after.counters.duplicated == before.counters.duplicated + |after.queue| - n - 1
            && after.counters.dropped == before.counters.dropped
  {
    hide NextRandom, Draw, OneBit, Damaged;
    CorruptedMeans(p, before.rng, frame);
    ChanceIs(before.rng, p.corruptPct, p.corruptPct);
  }

  function Ones(b: bool): nat {
    if b then 1 else 0
  }

  lemma Draws(rng: bv32)
    ensures After(rng, 0) == rng && After(rng, 1) == NextRandom(rng) && After(rng, 2) == NextRandom(NextRandom(rng))
    ensures After(rng, 3) == NextRandom(NextRandom(NextRandom(rng)))
  {
    hide NextRandom;
    assert After(rng, 1) == NextRandom(After(rng, 0));
    assert After(rng, 2) == NextRandom(After(rng, 1));
    assert After(rng, 3) == NextRandom(After(rng, 2));
  }

  /** Loss and doubling take one draw each, if they can happen at all. */
  lemma ChanceDraws(rng: bv32, percent: nat)
    ensures Chance(rng, percent).0 == After(rng, Ones(percent > 0))
    ensures Chance(rng, percent).1 <==> percent > 0 && Draw(After(rng, 1), 100) < percent
  {
    hide NextRandom, Draw, After;
    Draws(rng);
  }

  /** Damage takes one draw, and two more for the byte and the bit. */
  lemma DamageDraws(p: Profile, rng: bv32, frame: seq<byte>)
    ensures var (r, payload, flipped) := Corrupted(p, rng, frame);
            && (flipped <==> p.corruptPct > 0 && frame != [] && Draw(After(rng, 1), 100) < p.corruptPct)
            && r == After(rng, if p.corruptPct == 0 || frame == [] then 0 else if flipped then 3 else 1)
            && (flipped ==>
                  && frame != []
                  && var i := Draw(After(rng, 2), |frame|); payload == frame[i := frame[i] ^ OneBit(Draw(After(rng, 3), 8))])
  {
    hide NextRandom, Draw, OneBit, After;
    Draws(rng);
  }

  /** Jitter takes one draw and being held back another. */
  lemma DelayDraws(p: Profile, rng: bv32)
    ensures var (r, delay, held) := Delayed(p, rng); var jittered := Ones(p.jitterMs > 0);
            && r == After(rng, jittered + Ones(p.reorderPct > 0))
            && (held <==> p.reorderPct > 0 && Draw(After(rng, jittered + 1), 100) < p.reorderPct)
            && delay == p.latencyMs + (if p.jitterMs > 0 then Draw(After(rng, 1), p.jitterMs) else 0) + (if held then p.latencyMs + 1 else 0)
  {
    hide NextRandom, Draw, OneBit, After;
    Draws(rng);
  }
}
