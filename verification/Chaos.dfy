/**
 * The reliability regression run: sender, receiver and acknowledgements wired over the link
 * simulator, with a 32-bit id in each payload so that processing one twice can be seen.
 */
module Chaos {
  import opened Bytes
  import opened Dedup
  import opened Protocol
  import Arq
  import Frame
  import L = SimLink

  const SRC_ID: bv16 := 0x0101
  const DST_ID: bv16 := 0x0201
  const TELEMETRY: byte := 0x20
  const CONFIG_ACK: byte := 0x13
  const STEP_MS := 100
  const MAX_STEPS := 4000

  /** Copies that take less than this to arrive live at most 97 transfers of two steps each. */
  const DELAY_LIMIT_MS := 2 * STEP_MS * (LIFE + 1)

  // ---- frames -------------------------------------------------------------------------

  function IdBytes(id: nat): (s: seq<byte>)
    ensures |s| == 4
  {
    [U8(id / 0x100_0000 % 256), U8(id / 0x1_0000 % 256), U8(id / 0x100 % 256), U8(id % 256)]
  }

  function IdOf(p: seq<byte>): (id: nat)
    requires |p| >= 4
  {
    0x100_0000 * Val(p[0]) + 0x1_0000 * Val(p[1]) + 0x100 * Val(p[2]) + Val(p[3])
  }

  lemma IdRoundTrip(id: nat)
    requires id < TWO32
    ensures IdOf(IdBytes(id)) == id
  {
    DigitsAddUp(id);
  }

  lemma DigitsAddUp(id: nat)
    requires id < TWO32
    ensures 0x100_0000 * (id / 0x100_0000 % 256) + 0x1_0000 * (id / 0x1_0000 % 256) + 0x100 * (id / 0x100 % 256) + id % 256 == id
  {
    var q1 := id / 0x100;
    var q2 := q1 / 0x100;
    assert id / 0x1_0000 == q2;
    assert id / 0x100_0000 == q2 / 0x100;
    assert q2 / 0x100 < 256;
  }

  function Payload(id: nat, n: nat): (p: seq<byte>)
    ensures |p| == 4 + n
  {
    IdBytes(id) + seq(n, i requires 0 <= i => U8((id + i) % 256))
  }

  function DataWire(id: nat, n: nat): seq<byte> {
    Frame.Wire(Frame.Header(TELEMETRY, SRC_ID, DST_ID, U8(id % 256), 0), Payload(id, n))
  }

  function AckWire(seqNo: byte): seq<byte> {
    Frame.Wire(Frame.Header(CONFIG_ACK, DST_ID, SRC_ID, seqNo, 0), [])
  }

  predicate Intact(f: seq<byte>) {
    Frame.Parse(f).Intact()
  }

  /** The id an intact frame carries, -1 if it has no room for one. */
  function CarriedId(f: seq<byte>): int
    requires Intact(f)
  {
    var p := Frame.Parse(f).view.payload;
    if |p| < 4 then -1 else IdOf(p)
  }

  lemma DataParses(id: nat, n: nat)
    requires id < TWO32 && 4 + n <= Frame.MAX_PAYLOAD
    ensures Intact(DataWire(id, n)) && CarriedId(DataWire(id, n)) == id
    ensures Frame.Parse(DataWire(id, n)).view.hdr == Frame.Header(TELEMETRY, SRC_ID, DST_ID, U8(id % 256), 0)
    ensures Frame.Parse(DataWire(id, n)).view.payload == Payload(id, n)
  {
    hide Frame.Parse, Frame.Wire, IdBytes, IdOf, Frame.TypeIsKnown;
    Frame.ParseWire(Frame.Header(TELEMETRY, SRC_ID, DST_ID, U8(id % 256), 0), Payload(id, n));
    IdRoundTrip(id);
    IdOfPrefix(IdBytes(id), Payload(id, n));
  }

  lemma IdOfPrefix(p: seq<byte>, q: seq<byte>)
    requires |p| == 4 && p <= q
    ensures IdOf(p) == IdOf(q)
  {
  }

  lemma DataFits(id: nat, n: nat)
    requires 4 + n <= Frame.MAX_PAYLOAD
    ensures 0 < |DataWire(id, n)| <= Arq.MAX_FRAME
  {
  }

  lemma AckParses(seqNo: byte)
    ensures Intact(AckWire(seqNo))
    ensures Frame.Parse(AckWire(seqNo)).view.hdr == Frame.Header(CONFIG_ACK, DST_ID, SRC_ID, seqNo, 0)
  {
    hide Frame.Parse, Frame.Wire, Frame.TypeIsKnown;
    Frame.ParseWire(Frame.Header(CONFIG_ACK, DST_ID, SRC_ID, seqNo, 0), []);
  }

  /** The frame of a transfer: its header, and behind it the id in four bytes, most significant first. */
  lemma DataLayout(id: nat, n: nat)
    ensures var f := DataWire(id, n);
            && |f| == n + 14 && f[1] == 0x20 && f[6] == U8(id % 256) && f[7] == 0
            && ((f[2] as bv16) << 8) + (f[3] as bv16) == 0x0101 && ((f[4] as bv16) << 8) + (f[5] as bv16) == 0x0201
            && f[8..n + 12] == Payload(id, n)
  {
    hide Frame.Wire, U8, Payload;
    Frame.WireLayout(Frame.Header(TELEMETRY, SRC_ID, DST_ID, U8(id % 256), 0), Payload(id, n));
  }

  lemma PayloadLayout(id: nat, n: nat)
    ensures Payload(id, n)[..4] == [U8(id / 256 / 256 / 256 % 256), U8(id / 256 / 256 % 256), U8(id / 256 % 256), U8(id % 256)]
    ensures forall i :: 4 <= i < n + 4 ==> Payload(id, n)[i] == U8((id + i - 4) % 256)
  {
    hide U8;
    assert id / 256 / 256 == id / 0x1_0000 && id / 0x1_0000 / 256 == id / 0x100_0000;
  }

  /** An acknowledgement goes the other way under the number it answers, and carries nothing. */
  lemma AckLayout(seqNo: byte)
    ensures var f := AckWire(seqNo);
            && |f| == 10 && f[1] == 0x13 && f[6] == seqNo && f[7] == 0
            && ((f[2] as bv16) << 8) + (f[3] as bv16) == 0x0201 && ((f[4] as bv16) << 8) + (f[5] as bv16) == 0x0101
  {
    hide Frame.Wire;
    Frame.WireLayout(Frame.Header(CONFIG_ACK, DST_ID, SRC_ID, seqNo, 0), []);
  }

  // ---- what may be in flight ------------------------------------------------------------

  /**
   * The run's clocks: the longest delay of the link, the transfer `t` in progress (or next),
   * when it started, and when its frame was last sent.
   */
  datatype Clock = Clock(delay: nat, t: int, start: int, last: int)

  /** The latest time a frame of transfer `id` was sent: each transfer since took two steps. */
  function LastSent(k: Clock, id: int): int {
    if id == k.t then k.last else k.start - 2 * STEP_MS * (k.t - id)
  }

  /** Clocks further on in the same transfer, or two steps on in the next. */
  predicate Later(k: Clock, k': Clock) {
    && k'.delay == k.delay
    && ((k'.t == k.t && k'.start == k.start && k.last <= k'.last)
        || (k'.t == k.t + 1 && k'.start == k'.last && k.start + 2 * STEP_MS <= k'.start && k.last + 2 * STEP_MS <= k'.start))
  }

  /** A data frame of a transfer up to the current one, due within the longest delay of its last sending. */
  predicate IsData(e: L.Pending, n: nat, s: State, k: Clock)
    requires Intact(e.payload)
  {
    var id := CarriedId(e.payload);
    0 <= id <= s.cur && e.payload == DataWire(id, n) && e.dueMs <= k.delay + LastSent(k, id)
  }

  /** An acknowledgement of the arrival of `id`, sent within a step of that copy falling due. */
  predicate Answers(e: L.Pending, s: State, k: Clock, id: int) {
    id in s.arrivals && e.payload == AckWire(U8(id % SEQS)) && e.dueMs <= 2 * k.delay + STEP_MS + LastSent(k, id)
  }

  /** An intact frame in flight is one that was sent, and not long ago. */
  predicate Sound(e: L.Pending, n: nat, s: State, k: Clock) {
    Intact(e.payload) ==> if e.target.B? then IsData(e, n, s, k) else exists id :: id in s.arrivals && Answers(e, s, k, id)
  }

  /** It falls due in the step that ends at `now`. */
  predicate Arrives(e: L.Pending, n: nat, s: State, k: Clock, now: int) {
    Sound(e, n, s, k) && k.t == s.cur && k.start + STEP_MS <= now <= e.dueMs + STEP_MS
  }

  lemma SentIsSound(e: L.Pending, p: L.Profile, n: nat, s: State, k: Clock)
    requires 0 <= s.cur < TWO32 && 4 + n <= Frame.MAX_PAYLOAD && k.t == s.cur && k.delay == L.MaxDelayMs(p)
    requires L.Copy(e, p, k.last, L.B, DataWire(s.cur, n))
    ensures Sound(e, n, s, k)
  {
    hide Frame.Parse, CarriedId, DataWire;
    DataParses(s.cur, n);
    DamagedIsRefused(DataWire(s.cur, n), e.payload);
  }

  lemma AckIsSound(e: L.Pending, p: L.Profile, now: int, n: nat, s: State, k: Clock, id: int)
    requires id in s.arrivals && L.Copy(e, p, now, L.A, AckWire(U8(id % SEQS)))
    requires k.delay == L.MaxDelayMs(p) && now <= k.delay + STEP_MS + LastSent(k, id)
    ensures Sound(e, n, s, k)
  {
    hide Frame.Parse, CarriedId, AckWire;
    AckParses(U8(id % SEQS));
    DamagedIsRefused(AckWire(U8(id % SEQS)), e.payload);
    if e.payload == AckWire(U8(id % SEQS)) {
      assert Answers(e, s, k, id);
    }
  }

  lemma DamagedIsRefused(f: seq<byte>, g: seq<byte>)
    requires Intact(f)
    ensures L.Damaged(f, g) ==> !Intact(g)
  {
    if L.Damaged(f, g) {
      hide Frame.Parse;
      var i :| 0 <= i < |f| && g[i] != f[i] && g == f[i := g[i]];
      Frame.ByteDamageRefused(f, i, g[i]);
    }
  }

  /** Between two states of a run: ids only go up, and arrivals are only added. */
  predicate Onward(s: State, s': State) {
    s.cur <= s'.cur && s.arrivals <= s'.arrivals
  }

  lemma SoundLater(e: L.Pending, n: nat, s: State, s': State, k: Clock, k': Clock)
    requires Sound(e, n, s, k) && Onward(s, s') && Later(k, k') && s.cur <= k.t
    requires forall id :: id in s.arrivals ==> id <= s.cur
    ensures Sound(e, n, s', k')
  {
    hide Frame.Parse, CarriedId, DataWire, AckWire, Answers;
    if Intact(e.payload) && e.target.A? {
      var id :| id in s.arrivals && Answers(e, s, k, id);
      AnswersLater(e, s, s', k, k', id);
    }
  }

  lemma AnswersLater(e: L.Pending, s: State, s': State, k: Clock, k': Clock, id: int)
    requires Answers(e, s, k, id) && Onward(s, s') && Later(k, k') && id <= s.cur <= k.t
    ensures id in s'.arrivals && Answers(e, s', k', id)
  {
    hide AckWire;
  }

  /** A data copy arrives within `life` transfers of its own. */
  lemma DataInLife(e: L.Pending, n: nat, s: State, k: Clock, now: int, frames: nat)
    requires Arrives(e, n, s, k, now) && e.target.B? && Intact(e.payload) && s.cur < frames
    ensures 0 <= CarriedId(e.payload) <= s.cur && e.payload == DataWire(CarriedId(e.payload), n)
    ensures s.cur - CarriedId(e.payload) <= Life(k.delay, frames)
    ensures now <= k.delay + STEP_MS + LastSent(k, CarriedId(e.payload))
  {
    hide Frame.Parse, CarriedId, DataWire;
  }

  /** Which arrival an intact acknowledgement answers, not too long ago. */
  lemma AckOf(e: L.Pending, n: nat, s: State, k: Clock, now: int) returns (id: int)
    requires Arrives(e, n, s, k, now) && e.target.A? && Intact(e.payload)
    requires forall id :: id in s.arrivals ==> id <= s.cur
    ensures id in s.arrivals && (k.delay < DELAY_LIMIT_MS ==> s.cur - id <= 255)
    ensures Frame.Parse(e.payload).view.hdr == Frame.Header(CONFIG_ACK, DST_ID, SRC_ID, U8(id % SEQS), 0)
  {
    hide Frame.Parse, CarriedId, AckWire, Answers;
    id :| id in s.arrivals && Answers(e, s, k, id);
    AnswerIs(e, s, k, id, now);
  }

  lemma AnswerIs(e: L.Pending, s: State, k: Clock, id: int, now: int)
    requires Answers(e, s, k, id) && k.t == s.cur && id <= s.cur && k.start + STEP_MS <= now <= e.dueMs + STEP_MS
    ensures k.delay < DELAY_LIMIT_MS ==> s.cur - id <= 255
    ensures Intact(e.payload) && Frame.Parse(e.payload).view.hdr == Frame.Header(CONFIG_ACK, DST_ID, SRC_ID, U8(id % SEQS), 0)
  {
    hide Frame.Parse, AckWire;
    AckParses(U8(id % SEQS));
  }

  function Life(delay: nat, frames: nat): int {
    if delay < DELAY_LIMIT_MS then LIFE else frames
  }

  /** On a link that neither loses nor damages, this entry brings the current transfer to its end. */
  predicate Decides(e: L.Pending, n: nat, cur: int, k: Clock)
    requires 0 <= cur
  {
    || (e.target.B? && e.payload == DataWire(cur, n) && e.dueMs <= k.start + k.delay)
    || (e.target.A? && e.payload == AckWire(U8(cur % SEQS)) && e.dueMs <= k.start + 2 * k.delay + STEP_MS)
  }

  ghost predicate Underway(due: seq<L.Pending>, queue: seq<L.Pending>, n: nat, cur: int, k: Clock)
    requires 0 <= cur
  {
    exists e :: (e in due || e in queue) && Decides(e, n, cur, k)
  }

  lemma StillUnderway(queue: seq<L.Pending>, queue': seq<L.Pending>, n: nat, cur: int, k: Clock, k': Clock)
    requires 0 <= cur && Underway([], queue, n, cur, k) && queue <= queue' && k'.start == k.start && k'.delay == k.delay
    ensures Underway([], queue', n, cur, k')
  {
    hide DataWire, AckWire;
    var e :| e in queue && Decides(e, n, cur, k);
    assert e in queue' && Decides(e, n, cur, k');
  }

  predicate Perfect(p: L.Profile) {
    p.lossPct == 0 && p.corruptPct == 0
  }

  datatype Outcome = Rejected | Hung | Finished(delivered: nat, doubleProcessed: nat, crcRejects: nat, retries: nat, giveUps: nat, dupesDropped: nat)

  /** The guard of a link without duty-cycle limits. */
  function Unlimited(len: nat): bool {
    true
  }

  /** The jitter generator's first state, a step away from the link's. */
  function JitterSeed(seed: int): bv32 {
    L.Seeded(seed) ^ 0x9e37_79b9
  }

  /** What the jitter source answers next, after `n` draws. */
  function Jitter(seed: int, n: nat): Option<nat> {
    Some(L.Unsigned(L.After(JitterSeed(seed), n + 1)))
  }

  predicate DrawIs(a: Action, draw: Option<nat>) {
    (a.Begin? ==> a.draw == draw) && (a.Poll? ==> a.draw == draw)
  }

  /** Each send and each poll is offered the next number of the jitter generator. */
  ghost predicate Drawn(trace: seq<Action>, seed: int) {
    forall k :: 0 <= k < |trace| ==> DrawIs(trace[k], Jitter(seed, DrawsUsed(trace[..k])))
  }

  lemma DrawnSnoc(trace: seq<Action>, seed: int, a: Action)
    requires Drawn(trace, seed) && DrawIs(a, Jitter(seed, DrawsUsed(trace)))
    ensures Drawn(trace + [a], seed)
  {
    hide DrawsUsed, Jitter, DrawIs;
    var all := trace + [a];
    assert all[..|trace|] == trace && all[|trace|] == a;
    assert forall k :: 0 <= k < |trace| ==> all[..k] == trace[..k] && all[k] == trace[k];
  }

  /** An arrival at either end draws nothing. */
  lemma ArrivalsDrawNothing(trace: seq<Action>, seed: int, a: Action)
    requires Drawn(trace, seed) && (a.Arrive? || a.AckArrive?)
    ensures Drawn(trace + [a], seed) && DrawsUsed(trace + [a]) == DrawsUsed(trace)
  {
    hide Total, Run;
    TotalSnoc(trace, a);
    DrawnSnoc(trace, seed, a);
  }

  /** An accepted send takes the draw it is offered. */
  lemma BeginDraws(trace: seq<Action>, seed: int, frame: seq<byte>, now: int, draw: Option<nat>)
    requires Drawn(trace, seed) && draw == Jitter(seed, DrawsUsed(trace))
    requires var s := Run(trace);
             Arq.Step(Arq.Step(s.sender, Arq.Reset).0, Arq.Send((s.cur + 1) % SEQS, frame, now, draw)).1 == Arq.Accepted
    ensures var all := trace + [Begin(frame, now, draw)];
            Drawn(all, seed) && DrawsUsed(all) == DrawsUsed(trace) + 1 && Total(all) == Total(trace).(begun := Total(trace).begun + 1)
  {
    hide Total, Run, Arq.Step, Drawn;
    var begin := Begin(frame, now, draw);
    TotalSnoc(trace, begin);
    DrawnSnoc(trace, seed, begin);
  }

  class Harness {
    const frames: nat
    const extra: nat
    const link: L.SimLink
    const arq: Arq.Arq
    const dedup: DedupWindow
    const seen: array<bool>
    ghost const seed: int
    var arqRng: bv32
    var acked: bool
    var delivered: nat
    var doubleProcessed: nat
    var crcRejects: nat
    var retries: nat
    var giveUps: nat
    /** The run so far, as steps of the protocol, and the transfers given up. */
    ghost var trace: seq<Action>
    ghost var failed: set<int>

    constructor (profile: L.Profile, frames: nat, extra: nat, seed: int)
      requires seed != 0 && frames <= TWO32 && (frames == 0 || 4 + extra <= Frame.MAX_PAYLOAD)
      ensures this.frames == frames && this.extra == extra && this.seed == seed && link.profile == profile && link.clockMs == 0
      ensures fresh(link) && fresh(arq) && fresh(dedup) && fresh(seen)
      ensures Valid(Clock(Delay(), 0, 0, 0), 0) && trace == [] && !arq.phase.WaitAck?
      ensures Books(0)
      ensures !acked && delivered == doubleProcessed == crcRejects == retries == giveUps == 0
    {
      this.frames, this.extra, this.seed := frames, extra, seed;
      link := new L.SimLink(profile, seed);
      arq := new Arq.Arq();
      dedup := new DedupWindow();
      seen := new bool[frames](_ => false);
      arqRng := L.Seeded(seed) ^ 0x9e37_79b9;
      acked, delivered, doubleProcessed, crcRejects, retries, giveUps := false, 0, 0, 0, 0, 0;
      trace, failed := [], {};
      new;
      EmptyTrace(Life(L.MaxDelayMs(profile), frames));
    }

    ghost function Delay(): nat {
      L.MaxDelayMs(link.profile)
    }

    /** Copies are quick enough, and few enough transfers were given up, for every acknowledgement to be true. */
    ghost predicate Reliable()
      reads this`giveUps
    {
      Delay() < DELAY_LIMIT_MS && giveUps <= 126
    }

    /** The receiving end is where the protocol says it is, and its oracle has counted right. */
    ghost predicate ReceiverAgrees(s: State)
      reads this`delivered, this`doubleProcessed, dedup, seen
    {
      && dedup.Valid() && seen.Length == frames
      && dedup.peers == (match s.receiver case None => [] case Some(w) => [Peer(Addr(SRC_ID), w, Heard())])
      && (forall id :: 0 <= id < frames ==> (seen[id] <==> id in s.processed))
      && (forall id :: id in s.processed ==> 0 <= id <= s.cur)
      && (forall id :: id in s.arrivals ==> id <= s.cur)
      && delivered == |Distinct(s.processed)| && delivered + doubleProcessed == |s.processed|
      && (doubleProcessed == 0 <==> NoRepeats(s.processed))
    }

    /** The receiving end does not see the sender's steps. */
    lemma ReceiverUnmoved(s: State, s': State)
      requires ReceiverAgrees(s) && s.cur <= s'.cur
      requires s'.receiver == s.receiver && s'.arrivals == s.arrivals && s'.processed == s.processed
      ensures ReceiverAgrees(s')
    {
      hide NoRepeats, Distinct;
    }

    lemma ArrivalsBy(s: State)
      requires ReceiverAgrees(s)
      ensures forall id :: id in s.arrivals ==> id <= s.cur
    {
    }

    ghost function Heard(): int
      reads dedup
    {
      if dedup.peers == [] then 0 else dedup.peers[0].heardUs
    }

    /** Everything in flight was sent, is not overdue, and is due in time. */
    ghost predicate ChannelAgrees(s: State, k: Clock)
      reads link
    {
      && link.Balanced()
      && forall e :: e in link.queue ==> link.clockMs <= e.dueMs && Sound(e, extra, s, k)
    }

    /** Every transfer before `kept` was processed or given up, and the run has stayed close. */
    ghost predicate Ledger(s: State, kept: int)
      reads this`giveUps, this`failed, this`trace, this`acked
    {
      && |failed| == giveUps && (forall id :: id in failed ==> 0 <= id < kept)
      && (Reliable() ==>
            && Close(trace, REACH)
            && (forall id :: 0 <= id < kept ==> id in s.processed || id in failed)
            && (acked ==> s.cur in s.processed))
    }

    ghost predicate TraceAgrees()
      reads this`trace, arq
    {
      && Possible(trace) && Lifetime(trace, Life(Delay(), frames))
      && Run(trace).sender == arq.State()
      && -1 <= Run(trace).cur < frames <= TWO32
    }

    ghost predicate Valid(k: Clock, kept: int)
      reads this`trace, this`giveUps, this`failed, this`acked, this`delivered, this`doubleProcessed, link, arq, dedup, seen
    {
      && ReceiverAgrees(Run(trace)) && ChannelAgrees(Run(trace), k) && TraceAgrees() && Ledger(Run(trace), kept)
      && Run(trace).cur <= kept
      && k.delay == Delay() && Run(trace).cur <= k.t <= Run(trace).cur + 1
      && (frames == 0 || 4 + extra <= Frame.MAX_PAYLOAD)
    }

    /** The jitter generator has made exactly the draws the run has used. */
    ghost predicate Draws()
      reads this`trace, this`arqRng
    {
      Drawn(trace, seed) && arqRng == L.After(JitterSeed(seed), DrawsUsed(trace))
    }

    lemma DrawOffered()
      requires Draws()
      ensures Some(L.Unsigned(L.NextRandom(arqRng))) == Jitter(seed, DrawsUsed(trace))
      ensures L.NextRandom(arqRng) == L.After(JitterSeed(seed), DrawsUsed(trace) + 1)
    {
      hide L.NextRandom, Drawn, DrawsUsed;
    }

    /**
     * The counters tell what the run did: a frame sent for each transfer begun, each
     * retransmission and each arrival, and an arrival, an acknowledgement or a refusal for each
     * frame the link delivered, but for the `pending` ones not handed over yet.
     */
    ghost predicate Books(pending: nat)
      reads this`trace, this`crcRejects, this`retries, this`giveUps, this`arqRng, link, dedup
    {
      var t := Total(trace);
      && link.counters.sent == t.begun + t.retransmitted + t.arrived
      && link.counters.delivered == t.arrived + t.acks + crcRejects + pending
      && t.begun == Run(trace).cur + 1
      && Draws()
      && retries == t.retransmitted && giveUps == t.givenUp && dedup.dupesDropped == t.duplicates
    }

    /** While the sender waits on a perfect link, what ends its wait is on its way. */
    ghost predicate InProgress(due: seq<L.Pending>, k: Clock)
      reads this`trace, link, arq
    {
      Perfect(link.profile) && arq.phase.WaitAck? && 0 <= Run(trace).cur ==>
        Underway(due, link.queue, extra, Run(trace).cur, k)
    }

    /** Every intact frame is acknowledged, new or not. */
    method Acknowledge(seqNo: byte, ghost s: State, ghost id: int, ghost k: Clock)
      requires ChannelAgrees(s, k) && id in s.arrivals && seqNo == U8(id % SEQS)
      requires k.delay == Delay() && link.clockMs <= k.delay + STEP_MS + LastSent(k, id)
      modifies link
      ensures ChannelAgrees(s, k) && link.clockMs == old(link.clockMs)
      ensures old(link.queue) <= link.queue && link.counters.sent == old(link.counters).sent + 1
      ensures link.counters.delivered == old(link.counters).delivered
      ensures Perfect(link.profile) ==> HasAck(link.queue, seqNo, link.clockMs + Delay())
    {
      hide Frame.Parse, CarriedId, AckWire, IsData, Answers, Sound, L.Enqueued, L.Copy;
      link.Enqueue(L.A, AckWire(seqNo));
      forall e | e in link.queue
        ensures link.clockMs <= e.dueMs && Sound(e, extra, s, k)
      {
        if e !in old(link.queue) {
          AckIsSound(e, link.profile, link.clockMs, extra, s, k, id);
          L.CopyIsTimely(e, link.profile, link.clockMs, L.A, AckWire(seqNo));
        }
      }
      if Perfect(link.profile) {
        L.CopyIsTimely(link.queue[|old(link.queue)|], link.profile, link.clockMs, L.A, AckWire(seqNo));
      }
    }

    /** Past the checksum: the duplicate window decides, and the id in the payload is the witness. */
    method Process(view: Frame.View, ghost s: State, ghost id: int)
      requires ReceiverAgrees(s)
      requires view.hdr.srcId == SRC_ID && Val(view.hdr.seqNo) == id % SEQS
      requires |view.payload| >= 4 && IdOf(view.payload) == id && id <= s.cur < frames
      modifies this`delivered, this`doubleProcessed, dedup, seen
      ensures ReceiverAgrees(Next(s, Arrive(id)))
      ensures dedup.dupesDropped == old(dedup.dupesDropped) + (if Hear(s.receiver, id).1 == Duplicate then 1 else 0)
    {
      hide Judge, FirstHeard, IdOf, NoRepeats, Distinct;
      OnePeer(dedup.peers, s.receiver, id, link.clockMs * 1000);
      RepeatsIff(s.processed, id);
      DistinctSnoc(s.processed, id);
      var isNew := dedup.CheckAndMark(Addr(view.hdr.srcId), Val(view.hdr.seqNo), link.clockMs * 1000);
      if !isNew {
        assert s.processed + [] == s.processed;
        return;
      }
      var carried := IdOf(view.payload);
      if carried >= frames { return; }
      if seen[carried] {
        doubleProcessed := doubleProcessed + 1;
      } else {
        delivered := delivered + 1;
      }
      seen[carried] := true;
    }

    /** An intact frame of transfer `id`: acknowledged whether new or not, then judged. */
    method Receive(view: Frame.View, ghost id: int, ghost k: Clock, ghost kept: int, ghost pending: nat)
      requires Books(pending + 1)
      requires Valid(k, kept) && 0 <= id <= Run(trace).cur && Run(trace).cur - id <= Life(Delay(), frames)
      requires view.hdr.srcId == SRC_ID && view.hdr.seqNo == U8(id % SEQS)
      requires |view.payload| >= 4 && IdOf(view.payload) == id
      requires link.clockMs <= k.delay + STEP_MS + LastSent(k, id)
      modifies this`delivered, this`doubleProcessed, this`trace, link, dedup, seen
      ensures Books(pending)
      ensures Valid(k, kept) && Run(trace) == Next(Run(old(trace)), Arrive(id))
      ensures link.clockMs == old(link.clockMs) && old(link.queue) <= link.queue
      ensures link.counters.sent == old(link.counters).sent + 1
      ensures Perfect(link.profile) ==> HasAck(link.queue, view.hdr.seqNo, link.clockMs + Delay())
    {
      hide DataWire, Next, Run, Total, Added, Hear, Drawn, DrawsUsed, JitterSeed, L.After, Possible, Lifetime, Close, CloseStep, IdOf, NoRepeats, Distinct, Sound, Perfect, HasAck, ChannelAgrees;
      ghost var before := Run(trace);
      StayClose(trace, Arrive(id), kept);
      trace := Append(trace, Arrive(id), Life(Delay(), frames));
      ArrivalsGrow(before, id);
      TotalArrive(old(trace), id);
      ArrivalsDrawNothing(old(trace), seed, Arrive(id));
      SoundOnward(before, Run(trace), k);
      Acknowledge(view.hdr.seqNo, Run(trace), id, k);
      Process(view, before, id);
    }

    /** The receiving end's listener: a damaged frame is counted, any other acknowledged and judged. */
    method OnFrameB(e: L.Pending, ghost k: Clock, ghost kept: int, ghost pending: nat)
      requires Books(pending + 1)
      requires e.target.B? && Valid(k, kept) && Arrives(e, extra, Run(trace), k, link.clockMs)
      modifies this`delivered, this`doubleProcessed, this`crcRejects, this`trace, link, dedup, seen
      ensures Books(pending)
      ensures Valid(k, kept) && SameTransfer(Run(old(trace)), Run(trace))
      ensures link.clockMs == old(link.clockMs) && old(link.queue) <= link.queue
      ensures if Intact(e.payload)
              then
                && Run(trace) == Next(Run(old(trace)), Arrive(CarriedId(e.payload)))
                && link.counters.sent == old(link.counters).sent + 1 && crcRejects == old(crcRejects)
                && (Perfect(link.profile) ==> HasAck(link.queue, U8(CarriedId(e.payload) % SEQS), link.clockMs + Delay()))
              else trace == old(trace) && crcRejects == old(crcRejects) + 1 && link.queue == old(link.queue)
    {
      hide Frame.Parse, CarriedId, DataWire, Next, Run, Total, Draws, Possible, Lifetime, Close, IdOf, NoRepeats, Distinct, Sound, Perfect, HasAck;
      var parsed := Frame.Parse(e.payload);
      if !parsed.Intact() {
        crcRejects := crcRejects + 1;
        return;
      }
      ghost var id := CarriedId(e.payload);
      DataInLife(e, extra, Run(trace), k, link.clockMs, frames);
      DataParses(id, extra);
      CarriedIs(e.payload, parsed.view);
      ArrivalsGrow(Run(trace), id);
      Receive(parsed.view, id, k, kept, pending);
    }

    /** What is in flight stays sound as the run goes on. */
    lemma SoundOnward(before: State, s: State, k: Clock)
      requires ChannelAgrees(before, k) && Onward(before, s) && before.cur <= k.t
      requires forall id :: id in before.arrivals ==> id <= before.cur
      ensures ChannelAgrees(s, k)
    {
      hide Sound;
      forall e | e in link.queue
        ensures Sound(e, extra, s, k)
      {
        SoundLater(e, extra, before, s, k, k);
      }
    }

    /** The next step keeps the run close, while few enough transfers were given up. */
    lemma StayClose(actions: seq<Action>, a: Action, kept: int)
      requires Possible(actions) && Ledger(Run(actions), kept) && actions == trace && Enabled(Run(actions), a) && Run(actions).cur <= kept
      requires Reliable() && a.Arrive? ==> Run(actions).cur - a.id <= 127
      requires Reliable() && a.AckArrive? ==> Run(actions).cur - a.id <= 255
      ensures Reliable() ==> Close(actions + [a], REACH) && CloseStep(Run(actions), a, REACH)
    {
      hide Run, Possible, Close, CloseStep, Enabled;
      if Reliable() {
        KeptIsClose(actions, failed, a);
        AppendClose(actions, a, REACH);
      }
    }

    /** Reports an acknowledgement of arrival `id` to the sender. */
    method ReportAck(seqNo: byte, ghost id: int, ghost k: Clock, ghost kept: int, ghost pending: nat)
      requires Books(pending + 1)
      requires Valid(k, kept) && (acked ==> !arq.phase.WaitAck?)
      requires id in Run(trace).arrivals && seqNo == U8(id % SEQS) && (Delay() < DELAY_LIMIT_MS ==> Run(trace).cur - id <= 255)
      modifies this`acked, this`trace, arq
      ensures Books(pending)
      ensures Valid(k, kept) && SameTransfer(Run(old(trace)), Run(trace))
      ensures old(acked) ==> acked
      ensures if acked then !arq.phase.WaitAck? else SameTimer(old(arq.State()), arq.State())
      ensures old(arq.phase.WaitAck?) && Val(seqNo) == old(arq.seqNo) ==> acked
    {
      hide Frame.Parse, CarriedId, AckWire, Next, Run, Total, Added, Drawn, DrawsUsed, JitterSeed, L.After, Possible, Lifetime, Close, CloseStep, NoRepeats, Distinct, Sound, Arq.Step, ReceiverAgrees, ChannelAgrees;
      ghost var before := Run(trace);
      ghost var ack := AckArrive(id, link.clockMs * 1000);
      StayClose(trace, ack, kept);
      Arq.CompletedIff(arq.State(), id % SEQS, link.clockMs * 1000);
      if Reliable() && Arq.Step(before.sender, Arq.Ack(id % SEQS, link.clockMs * 1000)).1 == Arq.Completed {
        CompletedWasProcessed(trace, id, link.clockMs * 1000, REACH);
      }
      trace := Append(trace, ack, Life(Delay(), frames));
      TotalAck(old(trace), id, link.clockMs * 1000);
      ArrivalsDrawNothing(old(trace), seed, ack);
      AckChanges(before, id, link.clockMs * 1000);
      ArrivalsBy(before);
      SoundOnward(before, Run(trace), k);
      ReceiverUnmoved(before, Run(trace));
      var done := arq.OnAck(Val(seqNo), link.clockMs * 1000);
      if done { acked := true; }
    }

    /** The sending end's listener. */
    method OnFrameA(e: L.Pending, ghost k: Clock, ghost kept: int, ghost pending: nat)
      requires Books(pending + 1)
      requires e.target.A? && Valid(k, kept) && (acked ==> !arq.phase.WaitAck?)
      requires Arrives(e, extra, Run(trace), k, link.clockMs)
      modifies this`crcRejects, this`acked, this`trace, arq
      ensures Books(pending)
      ensures Valid(k, kept) && SameTransfer(Run(old(trace)), Run(trace))
      ensures old(acked) ==> acked
      ensures if acked then !arq.phase.WaitAck? else SameTimer(old(arq.State()), arq.State())
      ensures old(arq.phase.WaitAck?) && e.payload == AckWire(U8(Run(old(trace)).cur % SEQS)) ==> acked
      ensures !Intact(e.payload) ==> crcRejects == old(crcRejects) + 1 && trace == old(trace)
    {
      hide Frame.Parse, CarriedId, AckWire, Run, Total, Draws, Possible, Lifetime, Close, NoRepeats, Distinct, Sound, Arq.Step;
      AckParses(U8(Run(trace).cur % SEQS));
      var parsed := Frame.Parse(e.payload);
      if !parsed.Intact() {
        crcRejects := crcRejects + 1;
        return;
      }
      var hdr := parsed.view.hdr;
      ghost var id := AckOf(e, extra, Run(trace), k, link.clockMs);
      WaitsForCurrent(trace);
      if hdr.kind == CONFIG_ACK {
        ReportAck(hdr.seqNo, id, k, kept, pending);
      }
    }

    /** One polling step of the clock, and everything that came due. */
    method Advance(ghost k: Clock, ghost kept: int)
      requires Valid(k, kept) && k.start <= link.clockMs && k.t == Run(trace).cur && 0 <= k.t && (acked ==> !arq.phase.WaitAck?)
      requires InProgress([], k) && Books(0)
      modifies this`delivered, this`doubleProcessed, this`crcRejects, this`acked, this`trace, link, arq, dedup, seen
      ensures Books(0)
      ensures Valid(k, kept) && SameTransfer(Run(old(trace)), Run(trace)) && InProgress([], k)
      ensures link.clockMs == old(link.clockMs) + 100
      ensures old(acked) ==> acked
      ensures if acked then !arq.phase.WaitAck? else SameTimer(old(arq.State()), arq.State())
    {
      hide Frame.Parse, CarriedId, Next, Run, Total, Draws, Possible, Lifetime, Close, NoRepeats, Distinct, Sound, Decides, Perfect;
      var due := link.Advance(STEP_MS);
      for i := 0 to |due|
        invariant Books(|due| - i)
        invariant Valid(k, kept) && SameTransfer(Run(old(trace)), Run(trace)) && InProgress(due[i..], k)
        invariant link.clockMs == old(link.clockMs) + STEP_MS
        invariant forall j :: i <= j < |due| ==> Arrives(due[j], extra, Run(trace), k, link.clockMs)
        invariant old(acked) ==> acked
        invariant if acked then !arq.phase.WaitAck? else SameTimer(old(arq.State()), arq.State())
      {
        Deliver(due, i, k, kept);
      }
    }

    /** Hands one frame that came due to its side. */
    method Deliver(due: seq<L.Pending>, i: nat, ghost k: Clock, ghost kept: int)
      requires i < |due| && Books(|due| - i)
      requires Valid(k, kept) && InProgress(due[i..], k) && (acked ==> !arq.phase.WaitAck?) && 0 <= k.t
      requires forall j :: i <= j < |due| ==> Arrives(due[j], extra, Run(trace), k, link.clockMs)
      modifies this`delivered, this`doubleProcessed, this`crcRejects, this`acked, this`trace, link, arq, dedup, seen
      ensures Books(|due| - i - 1)
      ensures Valid(k, kept) && SameTransfer(Run(old(trace)), Run(trace)) && InProgress(due[i + 1..], k)
      ensures link.clockMs == old(link.clockMs)
      ensures forall j :: i < j < |due| ==> Arrives(due[j], extra, Run(trace), k, link.clockMs)
      ensures old(acked) ==> acked
      ensures if acked then !arq.phase.WaitAck? else SameTimer(old(arq.State()), arq.State())
    {
      hide Frame.Parse, CarriedId, DataWire, AckWire, Next, Run, Total, Draws, Possible, Lifetime, Close, NoRepeats, Distinct, Sound, Perfect;
      ghost var before := Run(trace);
      assert Arrives(due[i], extra, before, k, link.clockMs);
      ghost var waited := InProgress(due[i..], k) && Perfect(link.profile) && arq.phase.WaitAck?;
      ghost var e: L.Pending;
      if waited {
        e :| (e in due[i..] || e in link.queue) && Decides(e, extra, before.cur, k);
      }
      if due[i].target.A? {
        OnFrameA(due[i], k, kept, |due| - i - 1);
      } else {
        OnFrameB(due[i], k, kept, |due| - i - 1);
      }
      forall j | i < j < |due|
        ensures Arrives(due[j], extra, Run(trace), k, link.clockMs)
      {
        StillArrives(due[j], extra, before, Run(trace), k, link.clockMs);
      }
      if waited && arq.phase.WaitAck? && e !in link.queue && e !in due[i + 1..] {
        assert e == due[i];
        AckDecides(e, extra, k, link.queue, link.clockMs, before.cur);
      }
    }

    /** The frame of one transfer: its id, then a pattern. */
    method BuildFrame(id: nat) returns (wire: seq<byte>)
      ensures wire == DataWire(id, extra)
    {
      var payload := IdBytes(id);
      for i := 0 to extra
        invariant payload == IdBytes(id) + seq(i, k requires 0 <= k => U8((id + k) % 256))
      {
        payload := payload + [U8((id + i) % 256)];
      }
      wire := Frame.Wire(Frame.Header(TELEMETRY, SRC_ID, DST_ID, U8(id % 256), 0), payload);
    }

    /** Puts a data frame of the current transfer on the air. */
    method SendData(wire: seq<byte>, ghost k: Clock, ghost kept: int)
      requires Valid(k, kept) && k.t == Run(trace).cur && k.last <= link.clockMs && k.start <= link.clockMs
      requires 0 <= Run(trace).cur && wire == DataWire(Run(trace).cur, extra)
      modifies link
      ensures Valid(k.(last := link.clockMs), kept) && link.clockMs == old(link.clockMs)
      ensures old(link.queue) <= link.queue && link.counters.sent == old(link.counters).sent + 1
      ensures link.counters.delivered == old(link.counters).delivered
      ensures Perfect(link.profile) ==> HasData(link.queue, wire, link.clockMs + Delay())
    {
      hide Frame.Parse, CarriedId, DataWire, Next, Run, Possible, Lifetime, Close, NoRepeats, Distinct, Sound, L.Enqueued, L.Copy;
      ghost var s := Run(trace);
      ghost var now := k.(last := link.clockMs);
      link.Enqueue(L.B, wire);
      forall e | e in link.queue
        ensures link.clockMs <= e.dueMs && Sound(e, extra, s, now)
      {
        if e in old(link.queue) {
          SoundLater(e, extra, s, s, k, now);
        } else {
          SentIsSound(e, link.profile, extra, s, now);
          L.CopyIsTimely(e, link.profile, link.clockMs, L.B, wire);
        }
      }
      if Perfect(link.profile) {
        L.CopyIsTimely(link.queue[|old(link.queue)|], link.profile, link.clockMs, L.B, wire);
      }
    }

    /** The sender's timer is on schedule for a transfer that started at `start`. */
    ghost predicate OnSchedule(start: int, now: int)
      reads arq
    {
      && arq.phase.WaitAck? && arq.retryCount <= Arq.MAX_RETRIES
      && now * 1000 < arq.nextRetryUs
      && start * 1000 + Arq.ScheduleMs(arq.retryCount) * 1000 <= arq.nextRetryUs
      && arq.nextRetryUs <= start * 1000 + (Arq.ScheduleMs(arq.retryCount) + (arq.retryCount + 1) * 499) * 1000
                            + arq.retryCount * (STEP_MS * 1000)
    }

    /** The sender takes the frame of the next transfer. */
    method Take(id: nat, wire: seq<byte>, ghost k: Clock)
      requires k == Clock(Delay(), id, link.clockMs, link.clockMs)
      requires Draws()
      requires Valid(k, id) && Run(trace).cur == id - 1 && id < frames
      requires !arq.phase.WaitAck? && wire == DataWire(id, extra)
      modifies this`acked, this`arqRng, this`trace, arq
      ensures Total(trace) == Total(old(trace)).(begun := Total(old(trace)).begun + 1)
      ensures Draws()
      ensures Valid(k, id) && Run(trace).cur == id && !acked
      ensures OnSchedule(link.clockMs, link.clockMs) && arq.pending == wire
    {
      hide Frame.Parse, CarriedId, DataWire, Next, Run, Total, Drawn, DrawsUsed, Jitter, JitterSeed, L.NextRandom, L.After, Possible, Lifetime, Close, NoRepeats, Distinct, Sound, Arq.Step, Arq.ScheduleMs, ReceiverAgrees, ChannelAgrees;
      acked := false;
      DrawOffered();
      arqRng := L.NextRandom(arqRng);
      var draw := Some(L.Unsigned(arqRng));
      ghost var before := Run(trace);
      ghost var begin := Begin(wire, link.clockMs * 1000, draw);
      DataFits(id, extra);
      StayClose(trace, begin, id);
      trace := Append(trace, begin, Life(Delay(), frames));
      BeginChanges(before, wire, link.clockMs * 1000, draw);
      BeginDraws(old(trace), seed, wire, link.clockMs * 1000, draw);
      ArrivalsBy(before);
      arq.Reset();
      var ok := arq.Send(id % 256, wire, link.clockMs * 1000, draw);
      SoundOnward(before, Run(trace), k);
      ReceiverUnmoved(before, Run(trace));
    }

    /** Begins a transfer: the sender takes the frame and it goes on the air. */
    method Start(id: nat, ghost k: Clock) returns (wire: seq<byte>)
      requires Books(0)
      requires k == Clock(Delay(), id, link.clockMs, link.clockMs)
      requires Valid(k, id) && Run(trace).cur == id - 1 && id < frames && !arq.phase.WaitAck?
      modifies this`acked, this`arqRng, this`trace, link, arq
      ensures Books(0)
      ensures Valid(k, id) && Run(trace).cur == id && !acked && InProgress([], k)
      ensures link.clockMs == old(link.clockMs) && wire == DataWire(id, extra)
      ensures OnSchedule(link.clockMs, link.clockMs) && arq.pending == wire
    {
      hide DataWire, AckWire, Run, Total, Draws, Valid, Arq.ScheduleMs, Perfect;
      wire := BuildFrame(id);
      Take(id, wire, k);
      SendData(wire, k, id);
      assert k.(last := link.clockMs) == k;
    }

    /** The sender's timer is asked once. */
    method PollSender(ghost k: Clock) returns (action: Arq.Outcome)
      requires Draws()
      requires Valid(k, k.t) && k.t == Run(trace).cur && 0 <= k.t
      requires k.last + STEP_MS == link.clockMs && OnSchedule(k.start, k.last) && arq.pending == DataWire(k.t, extra)
      modifies this`arqRng, this`trace, arq
      ensures Total(trace) == Total(old(trace)).(retransmitted := Total(old(trace)).retransmitted + (if action.Retransmit? then 1 else 0),
                                                 givenUp := Total(old(trace)).givenUp + (if action.GaveUp? then 1 else 0))
      ensures Draws()
      ensures Valid(k, k.t) && Run(trace).cur == k.t
      ensures if action.GaveUp? then !arq.phase.WaitAck? && link.clockMs >= k.start + 252_000
              else OnSchedule(k.start, link.clockMs) && arq.pending == old(arq.pending)
      ensures action.Retransmit? ==> action.frame == old(arq.pending)
    {
      hide Frame.Parse, CarriedId, DataWire, Next, Run, Total, Drawn, Jitter, JitterSeed, L.NextRandom, L.After, Possible, Lifetime, Close, NoRepeats, Distinct, Sound, Arq.Step, Arq.ScheduleMs, ReceiverAgrees, ChannelAgrees;
      DrawOffered();
      var r := L.NextRandom(arqRng);
      var draw := Some(L.Unsigned(r));
      var now := link.clockMs * 1000;
      ghost var before := Run(trace);
      ghost var poll := Action.Poll(now, Unlimited, draw);
      StepOnSchedule(arq.State(), Arq.Tick(now, Unlimited, draw), k.start * 1000, k.last * 1000);
      PollChanges(before, now, Unlimited, draw);
      StayClose(trace, poll, k.t);
      TotalSnoc(trace, poll);
      DrawnSnoc(trace, seed, poll);
      trace := Append(trace, poll, Life(Delay(), frames));
      ArrivalsBy(before);
      SoundOnward(before, Run(trace), k);
      ReceiverUnmoved(before, Run(trace));
      action := arq.Tick(now, Unlimited, draw);
      if action.Retransmit? { arqRng := r; }
    }

    /** Polls the sender once; true when it gives up, which it never does on a perfect link. */
    method Poll(ghost k: Clock) returns (over: bool)
      requires Books(0)
      requires Valid(k, k.t) && k.t == Run(trace).cur && 0 <= k.t && InProgress([], k)
      requires k.start <= k.last && k.last + STEP_MS == link.clockMs && !acked && arq.phase.WaitAck?
      requires OnSchedule(k.start, k.last) && arq.pending == DataWire(k.t, extra)
      modifies this`arqRng, this`retries, this`giveUps, this`failed, this`trace, link, arq
      ensures Books(0) && link.counters.sent == old(link.counters).sent + (retries - old(retries))
      ensures retries > old(retries) && Perfect(link.profile) ==> HasData(link.queue, DataWire(k.t, extra), link.clockMs + Delay())
      ensures link.clockMs == old(link.clockMs) && Run(trace).cur == k.t
      ensures giveUps == old(giveUps) + if over then 1 else 0
      ensures over ==> !(Perfect(link.profile) && Delay() < DELAY_LIMIT_MS)
      ensures if over then Valid(k, k.t + 1) && !arq.phase.WaitAck? && InProgress([], k)
              else
                && Valid(k.(last := link.clockMs), k.t) && InProgress([], k.(last := link.clockMs))
                && OnSchedule(k.start, link.clockMs) && arq.pending == DataWire(k.t, extra)
    {
      hide DataWire, AckWire, Run, Total, Draws, Valid, Underway, OnSchedule, Perfect, HasData;
      if Perfect(link.profile) && Delay() < DELAY_LIMIT_MS {
        NotLongYet(k);
      }
      ghost var queue := link.queue;
      var action := PollSender(k);
      over := action.GaveUp?;
      if action.Retransmit? {
        retries := retries + 1;
        SendData(action.frame, k, k.t);
      } else if action.GaveUp? {
        RecordGiveUp(k);
        NotWaiting(k);
      } else {
        ClocksMove(k, k.t, k.(last := link.clockMs));
      }
      if !over && Perfect(link.profile) {
        StillUnderway(queue, link.queue, extra, k.t, k, k.(last := link.clockMs));
      }
    }

    /** What decides the transfer falls due long before the sender may give up. */
    lemma NotLongYet(k: Clock)
      requires Valid(k, k.t) && k.t == Run(trace).cur && 0 <= k.t && InProgress([], k)
      requires Perfect(link.profile) && Delay() < DELAY_LIMIT_MS && arq.phase.WaitAck?
      ensures link.clockMs < k.start + 252_000
    {
      hide DataWire, AckWire, Run, Perfect, Sound;
      var e :| e in link.queue && Decides(e, extra, k.t, k);
    }

    lemma NotWaiting(k: Clock)
      requires !arq.phase.WaitAck?
      ensures InProgress([], k)
    {
    }

    /** A transfer given up is remembered as such. */
    method RecordGiveUp(ghost k: Clock)
      requires Valid(k, k.t) && k.t == Run(trace).cur && 0 <= k.t
      modifies this`giveUps, this`failed
      ensures Valid(k, k.t + 1) && giveUps == old(giveUps) + 1
    {
      hide Run, Possible, Lifetime, Close, NoRepeats, Distinct, Sound;
      giveUps := giveUps + 1;
      failed := failed + {k.t};
    }

    /** Nothing in flight is late by clocks further on. */
    lemma ClocksMove(k: Clock, kept: int, k': Clock)
      requires Valid(k, kept) && Later(k, k') && Run(trace).cur <= k'.t <= Run(trace).cur + 1
      ensures Valid(k', kept)
    {
      hide Sound, Run, Possible, Lifetime, Close, NoRepeats, Distinct;
      forall e | e in link.queue
        ensures Sound(e, extra, Run(trace), k')
      {
        SoundLater(e, extra, Run(trace), Run(trace), k, k');
      }
    }

    /** Between transfers every one begun is over, and the books are closed. */
    lemma Settled()
      requires Books(0) && Possible(trace) && Run(trace).sender == arq.State() && !arq.phase.WaitAck?
      ensures var t := Total(trace);
              && retries == t.retransmitted <= 5 * t.begun && t.begun == Run(trace).cur + 1
              && giveUps == t.givenUp && t.completed + giveUps == t.begun
              && dedup.dupesDropped == t.duplicates && t.arrived == |Run(trace).processed| + dedup.dupesDropped + t.tooOld
              && link.counters.sent == t.begun + retries + t.arrived
              && link.counters.delivered == t.arrived + t.acks + crcRejects
              && Drawn(trace, seed)
    {
      hide Run, Total, Possible, Drawn, L.After, DrawsUsed, JitterSeed;
      TotalAddsUp(trace);
    }

    /** After the last transfer, with quick copies: nothing twice, and nothing lost but what was given up. */
    lemma Delivered(k: Clock)
      requires Valid(k, frames) && Run(trace).cur == frames - 1 && Delay() < DELAY_LIMIT_MS
      ensures doubleProcessed == 0 && delivered <= frames
      ensures giveUps <= 126 ==> delivered + giveUps >= frames
    {
      hide Run, Possible, Lifetime, Close, NoRepeats, Distinct, Sound, Protocol.Inv;
      NeverTwice(trace);
      InvMeans(Run(trace));
      AtMostAll(Run(trace).processed, frames);
      if giveUps <= 126 {
        AtLeastAll(Run(trace).processed, failed, frames);
      }
    }

    /** What the run's own state says at any time. */
    lemma Agrees(k: Clock, kept: int)
      requires Valid(k, kept)
      ensures Possible(trace) && Run(trace).sender == arq.State() && dedup.Valid()
      ensures delivered == |Distinct(Run(trace).processed)| && delivered + doubleProcessed == |Run(trace).processed|
      ensures doubleProcessed == 0 <==> NoRepeats(Run(trace).processed)
    {
      hide Run, Possible, Lifetime, Close, NoRepeats, Distinct, Sound;
    }

    /** The step after a transfer is over: stragglers arrive, and the ledger moves on. */
    method Drain(ghost k: Clock, ghost kept: int)
      requires Books(0)
      requires Valid(k, kept) && k.start <= k.last && k.t == Run(trace).cur && 0 <= k.t && k.last + STEP_MS == link.clockMs
      requires !arq.phase.WaitAck? && (kept == k.t + 1 || (kept == k.t && acked)) && InProgress([], k)
      modifies this`delivered, this`doubleProcessed, this`crcRejects, this`acked, this`trace, link, arq, dedup, seen
      ensures Books(0)
      ensures Valid(Clock(Delay(), k.t + 1, link.clockMs, link.clockMs), k.t + 1) && Run(trace).cur == k.t && !arq.phase.WaitAck?
    {
      hide Run, Books, InProgress, Valid, Possible, Lifetime, Close, NoRepeats, Distinct, Sound;
      Advance(k, kept);
      LedgerMoves(k, kept);
      ClocksMove(k, k.t + 1, Clock(Delay(), k.t + 1, link.clockMs, link.clockMs));
    }

    lemma LedgerMoves(k: Clock, kept: int)
      requires Valid(k, kept) && k.t == Run(trace).cur && (kept == k.t + 1 || (kept == k.t && acked))
      ensures Valid(k, k.t + 1) && k.delay == Delay()
    {
      hide Run, Possible, Lifetime, Close, NoRepeats, Distinct, Sound;
    }

    /** One transfer, to its acknowledgement or the sender giving up, and one step to drain. */
    method Transfer(id: nat) returns (hung: bool)
      requires Books(0)
      requires Valid(Clock(Delay(), id, link.clockMs, link.clockMs), id) && Run(trace).cur == id - 1 && id < frames
      requires !arq.phase.WaitAck?
      modifies this, link, arq, dedup, seen
      ensures Books(0)
      ensures !hung && Valid(Clock(Delay(), id + 1, link.clockMs, link.clockMs), id + 1) && Run(trace).cur == id
      ensures !arq.phase.WaitAck?
      ensures Perfect(link.profile) && Delay() < DELAY_LIMIT_MS ==> giveUps == old(giveUps)
    {
      hide DataWire, Run, Books, Valid, InProgress, Perfect, Arq.ScheduleMs;
      ghost var k := Clock(Delay(), id, link.clockMs, link.clockMs);
      ghost var kept := id;
      var wire := Start(id, k);
      Arq.ScheduleIs();
      var steps := 0;
      while !acked && steps < MAX_STEPS
        invariant steps <= MAX_STEPS && link.clockMs == k.start + STEP_MS * steps
        invariant k == Clock(Delay(), id, k.start, link.clockMs) && kept == id
        invariant Books(0)
        invariant Valid(k, id) && Run(trace).cur == id && InProgress([], k)
        invariant !acked && OnSchedule(k.start, link.clockMs) && arq.pending == DataWire(id, extra)
        invariant Perfect(link.profile) && Delay() < DELAY_LIMIT_MS ==> giveUps == old(giveUps)
      {
        steps := steps + 1;
        SoonOver(arq.retryCount, k.start, link.clockMs, arq.nextRetryUs, steps);
        Advance(k, id);
        if acked { break; }
        var over := Poll(k);
        if over {
          kept := id + 1;
          break;
        }
        k := k.(last := link.clockMs);
      }
      hung := steps >= MAX_STEPS;
      if hung { return; }
      Drain(k, kept);
    }

    /** Every transfer in turn. */
    method AllTransfers() returns (hung: bool)
      requires Books(0)
      requires Valid(Clock(Delay(), 0, link.clockMs, link.clockMs), 0) && Run(trace).cur == -1 && !arq.phase.WaitAck? && giveUps == 0
      modifies this, link, arq, dedup, seen
      ensures Books(0)
      ensures !hung && Run(trace).cur == frames - 1
      ensures !arq.phase.WaitAck?
      ensures Valid(Clock(Delay(), frames, link.clockMs, link.clockMs), frames)
      ensures Perfect(link.profile) && Delay() < DELAY_LIMIT_MS ==> giveUps == 0
    {
      hide Run, Books, Valid, Perfect;
      for id := 0 to frames
        invariant Books(0)
        invariant Valid(Clock(Delay(), id, link.clockMs, link.clockMs), id) && Run(trace).cur == id - 1 && !arq.phase.WaitAck?
        invariant Perfect(link.profile) && Delay() < DELAY_LIMIT_MS ==> giveUps == 0
      {
        hung := Transfer(id);
        if hung { return; }
      }
      hung := false;
    }
  }

  predicate HasAck(queue: seq<L.Pending>, seqNo: byte, due: int) {
    exists e :: e in queue && e.target.A? && e.payload == AckWire(seqNo) && e.dueMs <= due
  }

  predicate HasData(queue: seq<L.Pending>, wire: seq<byte>, due: int) {
    exists e :: e in queue && e.target.B? && e.payload == wire && e.dueMs <= due
  }

  /** Once the deciding data frame has arrived, its acknowledgement decides. */
  lemma AckDecides(e: L.Pending, n: nat, k: Clock, queue: seq<L.Pending>, now: int, cur: int)
    requires 0 <= cur < TWO32 && 4 + n <= Frame.MAX_PAYLOAD
    requires Decides(e, n, cur, k) && e.target.B? && now <= e.dueMs + STEP_MS
    requires Intact(e.payload) ==> HasAck(queue, U8(CarriedId(e.payload) % SEQS), now + k.delay)
    ensures exists q :: q in queue && Decides(q, n, cur, k)
  {
    hide Frame.Parse, CarriedId, DataWire, AckWire;
    DataParses(cur, n);
    var q :| q in queue && q.target.A? && q.payload == AckWire(U8(cur % SEQS)) && q.dueMs <= now + k.delay;
    assert Decides(q, n, cur, k);
  }

  /** Within one transfer only arrivals are added. */
  predicate SameTransfer(s: State, s': State) {
    s'.cur == s.cur && s.arrivals <= s'.arrivals
  }

  lemma StillArrives(e: L.Pending, n: nat, s: State, s': State, k: Clock, now: int)
    requires Arrives(e, n, s, k, now) && SameTransfer(s, s')
    requires forall id :: id in s.arrivals ==> id <= s.cur
    ensures Arrives(e, n, s', k, now)
  {
    hide Sound;
    SoundLater(e, n, s, s', k, k);
  }

  /** A sender that waits, waits for the number of the current transfer. */
  lemma WaitsForCurrent(actions: seq<Action>)
    requires Possible(actions)
    ensures var s := Run(actions); s.sender.phase.WaitAck? ==> s.sender.seqNo == s.cur % SEQS
  {
    ProcessedIsLetThrough(actions);
  }

  /** One poll keeps the schedule, and gives up only 252 s after the start. */
  lemma StepOnSchedule(t: Arq.Sender, e: Arq.Event, from: int, last: int)
    requires e.Tick? && t.phase.WaitAck? && t.retry <= Arq.MAX_RETRIES && e.now == last + STEP_MS * 1000
    requires forall len :: e.guard(len)
    requires last < t.nextRetry && from + Arq.ScheduleMs(t.retry) * 1000 <= t.nextRetry
    requires t.nextRetry <= from + (Arq.ScheduleMs(t.retry) + (t.retry + 1) * 499) * 1000 + t.retry * (STEP_MS * 1000)
    ensures var (t', out) := Arq.Step(t, e);
            if out.GaveUp? then e.now >= from + 252_000 * 1000 && !t'.phase.WaitAck?
            else
              && t'.phase.WaitAck? && t'.retry <= Arq.MAX_RETRIES && t'.pending == t.pending
              && e.now < t'.nextRetry && from + Arq.ScheduleMs(t'.retry) * 1000 <= t'.nextRetry
              && t'.nextRetry <= from + (Arq.ScheduleMs(t'.retry) + (t'.retry + 1) * 499) * 1000 + t'.retry * (STEP_MS * 1000)
              && (out.Retransmit? ==> out.frame == t.pending)
              && (out.Retransmit? || out.Nothing?)
  {
    Arq.ScheduleIs();
    Arq.StepInTime(t, e, from, last, STEP_MS * 1000);
  }

  /** A sender still on schedule is nowhere near the step limit. */
  lemma SoonOver(retry: nat, start: int, now: int, nextRetryUs: int, steps: nat)
    requires retry <= Arq.MAX_RETRIES && steps > 0 && now == start + STEP_MS * (steps - 1)
    requires now * 1000 < nextRetryUs <= start * 1000 + (Arq.ScheduleMs(retry) + (retry + 1) * 499) * 1000 + retry * (STEP_MS * 1000)
    ensures steps < MAX_STEPS
  {
    Arq.ScheduleIs();
  }

  lemma PollChanges(s: State, now: int, guard: nat -> bool, draw: Option<nat>)
    ensures var s' := Next(s, Action.Poll(now, guard, draw));
            && s'.cur == s.cur && s'.arrivals == s.arrivals && s'.receiver == s.receiver && s'.processed == s.processed
            && s'.sender == Arq.Step(s.sender, Arq.Tick(now, guard, draw)).0
    ensures var out := Arq.Step(s.sender, Arq.Tick(now, guard, draw)).1;
            && (out.Retransmit? ==> out.frame == s.sender.pending)
            && (out.GaveUp? ==> !Next(s, Action.Poll(now, guard, draw)).sender.phase.WaitAck?)
            && (!out.GaveUp? ==>
                  && Next(s, Action.Poll(now, guard, draw)).sender.phase == s.sender.phase
                  && Next(s, Action.Poll(now, guard, draw)).sender.pending == s.sender.pending)
  {
  }

  lemma BeginChanges(s: State, frame: seq<byte>, now: int, draw: Option<nat>)
    requires 0 < |frame| <= Arq.MAX_FRAME
    ensures var s' := Next(s, Begin(frame, now, draw));
            && s'.cur == s.cur + 1 && s'.arrivals == s.arrivals && s'.receiver == s.receiver && s'.processed == s.processed
            && s'.sender == Arq.Step(Arq.Step(s.sender, Arq.Reset).0, Arq.Send(s'.cur % SEQS, frame, now, draw)).0
            && s'.sender.phase.WaitAck? && s'.sender.retry == 0 && s'.sender.pending == frame
            && now + Arq.ScheduleMs(0) * 1000 <= s'.sender.nextRetry <= now + (Arq.ScheduleMs(0) + 499) * 1000
            && now < s'.sender.nextRetry
            && Arq.Step(Arq.Step(s.sender, Arq.Reset).0, Arq.Send(s'.cur % SEQS, frame, now, draw)).1 == Arq.Accepted
  {
    Arq.FirstWait(Arq.Step(s.sender, Arq.Reset).0, Arq.Send((s.cur + 1) % SEQS, frame, now, draw));
  }

  /** The sender has the same frame in flight, due for the same retry at the same time. */
  predicate SameTimer(s: Arq.Sender, s': Arq.Sender) {
    s'.(stats := s.stats) == s
  }

  lemma AckChanges(s: State, id: int, now: int)
    ensures var s' := Next(s, AckArrive(id, now));
            && s'.cur == s.cur && s'.arrivals == s.arrivals && s'.receiver == s.receiver && s'.processed == s.processed
            && s'.sender == Arq.Step(s.sender, Arq.Ack(id % SEQS, now)).0
    ensures Arq.Step(s.sender, Arq.Ack(id % SEQS, now)).1 == Arq.Completed ==> !Next(s, AckArrive(id, now)).sender.phase.WaitAck?
  {
  }

  lemma CarriedIs(f: seq<byte>, view: Frame.View)
    requires Intact(f) && Frame.Parse(f).view == view && CarriedId(f) >= 0
    ensures |view.payload| >= 4 && IdOf(view.payload) == CarriedId(f)
  {
    hide Frame.Parse, IdOf;
  }

  lemma OnePeer(peers: seq<Peer>, receiver: Option<Window>, id: int, now: int)
    requires receiver.None? ==> peers == []
    requires receiver.Some? ==> |peers| == 1 && peers[0].srcId == Addr(SRC_ID) && peers[0].window == receiver.value
    ensures CheckTable(peers, Addr(SRC_ID), id % SEQS, now) ==
            ([Peer(Addr(SRC_ID), Hear(receiver, id).0, now)], Hear(receiver, id).1, false)
  {
    hide Judge, FirstHeard;
    var heard := Peer(Addr(SRC_ID), Hear(receiver, id).0, now);
    if receiver.None? {
      assert peers + [heard] == [heard];
    } else {
      assert Find(peers, Addr(SRC_ID)) == 0;
      assert peers[0 := heard] == [heard];
    }
  }

  function Distinct(ids: seq<int>): set<int> {
    set id | id in ids
  }

  lemma DistinctSnoc(ids: seq<int>, id: int)
    ensures |Distinct(ids + [id])| == |Distinct(ids)| + if id in ids then 0 else 1
  {
    assert Distinct(ids + [id]) == Distinct(ids) + {id};
  }

  lemma RepeatsIff(ids: seq<int>, id: int)
    ensures NoRepeats(ids + [id]) <==> NoRepeats(ids) && id !in ids
  {
    var all := ids + [id];
    assert forall i :: 0 <= i < |ids| ==> ids[i] == all[i];
    assert all[|ids|] == id;
    if NoRepeats(all) {
      forall i, j | 0 <= i < j < |ids|
        ensures ids[i] != ids[j]
      {
        assert all[i] != all[j];
      }
    }
  }

  function Addr(a: bv16): nat {
    a as nat
  }

  lemma ArrivalsGrow(s: State, id: int)
    ensures Next(s, Arrive(id)).arrivals == s.arrivals + [id] && Next(s, Arrive(id)).cur == s.cur && Next(s, Arrive(id)).sender == s.sender
    ensures s.processed <= Next(s, Arrive(id)).processed
  {
  }

  /**
   * The whole run. Whatever the seed and the impairments it is one of the protocol's runs, it
   * never hangs, and its count of frames processed twice is zero exactly when no id was. Its
   * counts are those of the run: what went on the air is a frame for each transfer, for each
   * retransmission reported and for each arrival, and what came off it arrived, acknowledged or
   * was refused; every transfer was acknowledged or given up. With
   * copies that arrive within 19.6 s that count is zero and, while at most 126 transfers were
   * given up, every other frame was delivered; on a link that neither loses nor damages
   * anything, every frame is delivered once.
   */
  method RunChaos(profile: L.Profile, frames: nat, extra: nat, seed: int) returns (r: Outcome, ghost trace: seq<Action>, ghost air: L.Counters)
    requires frames <= TWO32
    ensures r.Rejected? <==> seed == 0 || (frames > 0 && 4 + extra > Frame.MAX_PAYLOAD)
    ensures !r.Hung?
    ensures r.Finished? ==>
              && Possible(trace) && Run(trace).cur == frames - 1
              && r.delivered == |Distinct(Run(trace).processed)| && r.delivered + r.doubleProcessed == |Run(trace).processed|
              && (r.doubleProcessed == 0 <==> NoRepeats(Run(trace).processed))
    ensures r.Finished? ==>
              var t := Total(trace);
              && r.retries == t.retransmitted <= 5 * frames
              && r.giveUps == t.givenUp && t.completed + r.giveUps == t.begun == frames
              && r.dupesDropped == t.duplicates && t.arrived == |Run(trace).processed| + r.dupesDropped + t.tooOld
              && air.sent == frames + r.retries + t.arrived
              && air.delivered == t.arrived + t.acks + r.crcRejects
              && Drawn(trace, seed)
    ensures r.Finished? && L.MaxDelayMs(profile) < DELAY_LIMIT_MS ==>
              && r.doubleProcessed == 0 && r.delivered <= frames
              && (r.giveUps <= 126 ==> r.delivered + r.giveUps >= frames)
              && (Perfect(profile) ==> r.giveUps == 0 && r.delivered == frames)
  {
    trace, air := [], L.Counters(0, 0, 0, 0, 0, 0);
    if seed == 0 || (frames > 0 && 4 + extra > Frame.MAX_PAYLOAD) { return Rejected, [], air; }
    hide Next, Run, Total, Possible, NoRepeats, Distinct, Drawn, Perfect, Harness.Valid, Harness.Books;
    var h := new Harness(profile, frames, extra, seed);
    RunNone();
    var hung := h.AllTransfers();
    trace, air := h.trace, h.link.counters;
    if hung { return Hung, trace, air; }
    ghost var k := Clock(h.Delay(), frames, h.link.clockMs, h.link.clockMs);
    h.Agrees(k, frames);
    h.Settled();
    if L.MaxDelayMs(profile) < DELAY_LIMIT_MS {
      h.Delivered(k);
    }
    r := Finished(h.delivered, h.doubleProcessed, h.crcRejects, h.retries, h.giveUps, h.dedup.dupesDropped);
  }

  function Below(n: nat): (ids: set<int>)
    ensures forall id :: id in ids <==> 0 <= id < n
    ensures |ids| == n
  {
    if n == 0 then {} else Below(n - 1) + {n - 1}
  }

  /** Ids below `n`, none twice, are at most `n`. */
  lemma AtMostAll(ids: seq<int>, n: nat)
    requires NoRepeats(ids) && forall id :: id in ids ==> 0 <= id < n
    ensures |ids| <= n
  {
    DistinctSize(ids);
    SmallerSet(Distinct(ids), Below(n));
  }

  lemma AtLeastAll(ids: seq<int>, failed: set<int>, n: nat)
    requires forall id :: 0 <= id < n ==> id in ids || id in failed
    ensures n <= |ids| + |failed|
  {
    SeqSetSize(ids);
    SmallerSet(Below(n), Distinct(ids) + failed);
  }

  lemma {:induction false} SeqSetSize(ids: seq<int>)
    ensures |Distinct(ids)| <= |ids|
  {
    if ids != [] {
      var n := |ids| - 1;
      SeqSetSize(ids[..n]);
      assert Distinct(ids) == Distinct(ids[..n]) + {ids[n]};
    }
  }

  lemma {:induction false} DistinctSize(ids: seq<int>)
    requires NoRepeats(ids)
    ensures |Distinct(ids)| == |ids|
  {
    if ids != [] {
      var n := |ids| - 1;
      DistinctSize(ids[..n]);
      assert Distinct(ids) == Distinct(ids[..n]) + {ids[n]};
      assert ids[n] !in ids[..n];
    }
  }

  lemma SmallerSet(a: set<int>, b: set<int>)
    requires a <= b
    ensures |a| <= |b|
  {
    assert b == a + (b - a);
  }

  lemma RunNone()
    ensures Run([]).cur == -1
  {
  }

  lemma InvMeans(s: State)
    requires Inv(s)
    ensures NoRepeats(s.processed)
  {
  }

  lemma EmptyTrace(life: int)
    ensures Possible([]) && Lifetime([], life) && Run([]) == Init()
  {
  }
}
