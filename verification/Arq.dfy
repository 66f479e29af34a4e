/**
 * Stop-and-wait delivery: one frame in flight, retransmitted on a doubling timeout with jitter
 * until it is acknowledged or five retransmissions have gone unanswered.
 */
module Arq {
  import opened Bytes

  const MAX_RETRIES := 5
  const BASE_MS := 4000
  const JITTER_MS := 500
  const DEFER_MS := 250
  const MAX_FRAME := 230

  datatype Phase = Idle | WaitAck | Done | Failed

  datatype Stats = Stats(sent: nat, retries: nat, acked: nat, giveups: nat, deferred: nat,
                         strayAcks: nat, rttSumMs: nat, rttCount: nat)

  /** One sender; times are in microseconds. */
  datatype Sender = Sender(phase: Phase, seqNo: nat, retry: nat, pending: seq<byte>,
                           nextRetry: int, sentAt: int, stats: Stats)

  /** What one call reports back. */
  datatype Outcome =
    | Refused | Accepted
    | Stray | Completed
    | Nothing | Retransmit(frame: seq<byte>) | GaveUp | Deferred
    | Abandoned

  /**
   * One call. `draw` is what the jitter source would answer (`None` when none is fitted) and
   * `guard` the duty-cycle veto, asked with the length of the frame.
   */
  datatype Event =
    | Send(seqNo: nat, frame: seq<byte>, now: int, draw: Option<nat>)
    | Ack(seqNo: nat, now: int)
    | Tick(now: int, guard: nat -> bool, draw: Option<nat>)
    | Reset

  function Pow2(n: nat): nat {
    if n == 0 then 1 else 2 * Pow2(n - 1)
  }

  /** How long to wait after transmission number `retry`. */
  function TimeoutMs(retry: nat, draw: Option<nat>): nat {
    BASE_MS * Pow2(Min(retry, MAX_RETRIES)) + match draw case None => 0 case Some(r) => r % JITTER_MS
  }

  function Init(): Sender {
    Sender(Idle, 0, 0, [], 0, 0, Stats(0, 0, 0, 0, 0, 0, 0, 0))
  }

  function Step(s: Sender, e: Event): (Sender, Outcome) {
    match e
    case Send(seqNo, frame, now, draw) =>
      if s.phase.WaitAck? || |frame| == 0 || |frame| > MAX_FRAME then (s, Refused)
      else (Sender(WaitAck, seqNo, 0, frame, now + TimeoutMs(0, draw) * 1000, now, s.stats.(sent := s.stats.sent + 1)), Accepted)
    case Ack(seqNo, now) =>
      if !s.phase.WaitAck? || seqNo != s.seqNo then (s.(stats := s.stats.(strayAcks := s.stats.strayAcks + 1)), Stray)
      else (s.(phase := Done, pending := [], stats := Timed(s.stats, now - s.sentAt).(acked := s.stats.acked + 1)), Completed)
    case Tick(now, guard, draw) =>
      if !s.phase.WaitAck? || now < s.nextRetry then (s, Nothing)
      else if s.retry >= MAX_RETRIES then (s.(phase := Failed, stats := s.stats.(giveups := s.stats.giveups + 1)), GaveUp)
      else if !guard(|s.pending|) then
        (s.(nextRetry := now + DEFER_MS * 1000, stats := s.stats.(deferred := s.stats.deferred + 1)), Deferred)
      else
        (s.(retry := s.retry + 1, nextRetry := now + TimeoutMs(s.retry + 1, draw) * 1000,
            stats := s.stats.(retries := s.stats.retries + 1)), Retransmit(s.pending))
    case Reset =>
      (Sender(Idle, 0, 0, [], 0, 0, s.stats), if s.phase.WaitAck? then Abandoned else Nothing)
  }

  /** A round trip counts towards the mean when it took measurable time. */
  function Timed(s: Stats, rttUs: int): Stats {
    if rttUs > 0 then s.(rttSumMs := s.rttSumMs + rttUs / 1000, rttCount := s.rttCount + 1) else s
  }

  class Arq {
    var phase: Phase
    var seqNo: nat
    var retryCount: nat
    var pending: seq<byte>
    var nextRetryUs: int
    var sentAtUs: int
    var stats: Stats

    function State(): Sender
      reads this
    {
      Sender(phase, seqNo, retryCount, pending, nextRetryUs, sentAtUs, stats)
    }

    constructor ()
      ensures State() == Init()
    {
      phase, seqNo, retryCount, pending, nextRetryUs, sentAtUs := Idle, 0, 0, [], 0, 0;
      stats := Stats(0, 0, 0, 0, 0, 0, 0, 0);
    }

    method Send(seqNo: nat, frame: seq<byte>, now: int, draw: Option<nat>) returns (ok: bool)
      modifies this
      ensures var (s, out) := Step(old(State()), Event.Send(seqNo, frame, now, draw));
              State() == s && ok == out.Accepted?
    {
      if phase.WaitAck? { return false; }
      if |frame| == 0 || |frame| > MAX_FRAME { return false; }
      pending := frame;
      this.seqNo := seqNo;
      retryCount := 0;
      phase := WaitAck;
      sentAtUs := now;
      nextRetryUs := now + TimeoutMs(0, draw) * 1000;
      stats := stats.(sent := stats.sent + 1);
      return true;
    }

    method OnAck(seqNo: nat, now: int) returns (ok: bool)
      modifies this
      ensures var (s, out) := Step(old(State()), Ack(seqNo, now));
              State() == s && ok == out.Completed?
    {
      if !phase.WaitAck? || seqNo != this.seqNo {
        stats := stats.(strayAcks := stats.strayAcks + 1);
        return false;
      }
      var rtt := now - sentAtUs;
      if rtt > 0 {
        stats := stats.(rttSumMs := stats.rttSumMs + rtt / 1000, rttCount := stats.rttCount + 1);
      }
      stats := stats.(acked := stats.acked + 1);
      phase := Done;
      pending := [];
      return true;
    }

    method Tick(now: int, guard: nat -> bool, draw: Option<nat>) returns (action: Outcome)
      modifies this
      ensures (State(), action) == Step(old(State()), Event.Tick(now, guard, draw))
    {
      if !phase.WaitAck? { return Nothing; }
      if now < nextRetryUs { return Nothing; }
      if retryCount >= MAX_RETRIES {
        phase := Failed;
        stats := stats.(giveups := stats.giveups + 1);
        return GaveUp;
      }
      if !guard(|pending|) {
        nextRetryUs := now + DEFER_MS * 1000;
        stats := stats.(deferred := stats.deferred + 1);
        return Deferred;
      }
      retryCount := retryCount + 1;
      stats := stats.(retries := stats.retries + 1);
      nextRetryUs := now + TimeoutMs(retryCount, draw) * 1000;
      return Retransmit(pending);
    }

    method Reset()
      modifies this
      ensures State() == Step(old(State()), Event.Reset).0
    {
      phase, seqNo, retryCount, pending, nextRetryUs, sentAtUs := Idle, 0, 0, [], 0, 0;
    }
  }

  // ---- whole runs ---------------------------------------------------------------------

  function Run(s: Sender, es: seq<Event>): Sender {
    if es == [] then s else Step(Run(s, es[..|es| - 1]), es[|es| - 1]).0
  }

  /** What each call of a run reports. */
  function Outcomes(s: Sender, es: seq<Event>): (outs: seq<Outcome>)
    ensures |outs| == |es|
  {
    if es == [] then [] else
      Outcomes(s, es[..|es| - 1]) + [Step(Run(s, es[..|es| - 1]), es[|es| - 1]).1]
  }

  function Retransmissions(outs: seq<Outcome>): nat {
    if outs == [] then 0 else
      Retransmissions(outs[..|outs| - 1]) + if outs[|outs| - 1].Retransmit? then 1 else 0
  }

  function AbandonedCount(outs: seq<Outcome>): nat {
    if outs == [] then 0 else
      AbandonedCount(outs[..|outs| - 1]) + if outs[|outs| - 1].Abandoned? then 1 else 0
  }

  /** The least time from the send to the end of wait number `retry`: 4, 12, 28, 60, 124 and 252 s. */
  function ScheduleMs(retry: nat): nat {
    BASE_MS * Pow2(retry) + if retry == 0 then 0 else ScheduleMs(retry - 1)
  }

  /**
   * One accepted send, whatever follows until the next: at most five retransmissions, each of
   * the bytes that were sent; and giving up comes after exactly five of them and no sooner than
   * 252 s after the send, however often the duty cycle deferred one.
   */
  lemma {:induction false} OneTransfer(s: Sender, send: Event, es: seq<Event>)
    requires send.Send? && Step(s, send).1 == Accepted
    requires Accepted !in Outcomes(Step(s, send).0, es)
    ensures var outs := Outcomes(Step(s, send).0, es);
            && Retransmissions(outs) <= MAX_RETRIES
            && (forall k :: 0 <= k < |es| && outs[k].Retransmit? ==> outs[k].frame == send.frame)
            && (forall k :: 0 <= k < |es| && outs[k].GaveUp? ==>
                              Retransmissions(outs[..k]) == MAX_RETRIES && es[k].Tick? && es[k].now >= send.now + 252_000 * 1000)
    ensures var t := Run(Step(s, send).0, es);
            t.phase.WaitAck? ==> InFlight(t, send) && t.retry == Retransmissions(Outcomes(Step(s, send).0, es))
  {
    ScheduleIs();
    var s0 := Step(s, send).0;
    var outs := Outcomes(s0, es);
    hide Step, Run, Outcomes, Pow2, ScheduleMs;
    if es == [] {
      RunNone(s0);
      FirstWait(s, send);
    } else {
      var n := |es| - 1;
      RunSnoc(s0, es);
      assert outs[..n] == Outcomes(s0, es[..n]);
      assert outs[n] in outs && Accepted !in outs[..n];
      OneTransfer(s, send, es[..n]);
      TransferStep(Run(s0, es[..n]), es[n], send);
      forall k | 0 <= k < n && outs[k].GaveUp?
        ensures Retransmissions(outs[..k]) == MAX_RETRIES
      {
        assert outs[..n][..k] == outs[..k];
      }
    }
  }

  lemma RunNone(s: Sender)
    ensures Run(s, []) == s && Outcomes(s, []) == []
  {
  }

  lemma RunSnoc(s: Sender, es: seq<Event>)
    requires es != []
    ensures var (t, out) := Step(Run(s, es[..|es| - 1]), es[|es| - 1]);
            Run(s, es) == t && Outcomes(s, es) == Outcomes(s, es[..|es| - 1]) + [out]
  {
  }

  lemma FirstWait(s: Sender, send: Event)
    requires send.Send? && Step(s, send).1 == Accepted
    ensures var t := Step(s, send).0;
            && InFlight(t, send) && t.retry == 0 && send.now < t.nextRetry
            && t.nextRetry <= send.now + (ScheduleMs(0) + 499) * 1000
  {
  }

  /** A waiting sender is still waiting on the frame it was given, on schedule. */
  predicate InFlight(t: Sender, send: Event)
    requires send.Send?
  {
    && t.phase.WaitAck? && t.retry <= MAX_RETRIES
    && t.pending == send.frame && t.seqNo == send.seqNo && t.sentAt == send.now
    && t.nextRetry >= send.now + ScheduleMs(t.retry) * 1000
  }

  lemma TransferStep(t: Sender, e: Event, send: Event)
    requires send.Send? && (t.phase.WaitAck? ==> InFlight(t, send))
    requires Step(t, e).1 != Accepted
    ensures var (t', out) := Step(t, e);
            && (out.Retransmit? ==> t.phase.WaitAck? && out.frame == send.frame && t.retry < MAX_RETRIES)
            && (out.GaveUp? ==> t.phase.WaitAck? && t.retry == MAX_RETRIES && e.Tick? && e.now >= t.nextRetry)
            && (t'.phase.WaitAck? ==>
                  && t.phase.WaitAck? && InFlight(t', send)
                  && t'.retry == t.retry + if out.Retransmit? then 1 else 0)
  {
    ScheduleIs();
  }

  lemma ScheduleIs()
    ensures ScheduleMs(0) == 4_000 && ScheduleMs(1) == 12_000 && ScheduleMs(2) == 28_000
    ensures ScheduleMs(3) == 60_000 && ScheduleMs(4) == 124_000 && ScheduleMs(5) == 252_000
    ensures forall r: nat :: r < MAX_RETRIES ==> ScheduleMs(r + 1) == ScheduleMs(r) + BASE_MS * Pow2(r + 1)
  {
    assert Pow2(1) == 2 && Pow2(2) == 4 && Pow2(3) == 8;
    assert Pow2(4) == 16 && Pow2(5) == 32;
    assert ScheduleMs(1) == 12_000 && ScheduleMs(2) == 28_000;
    assert ScheduleMs(3) == 60_000 && ScheduleMs(4) == 124_000;
  }

  // ---- what every poll of the timer answers, from the history alone ---------------------

  /** Nothing has ended the transfer. */
  predicate Waiting(outs: seq<Outcome>) {
    forall k :: 0 <= k < |outs| ==> !outs[k].Completed? && !outs[k].GaveUp? && !outs[k].Abandoned?
  }

  function Jitter(draw: Option<nat>): nat {
    if draw.Some? then draw.value % 500 else 0
  }

  /** When the timer is due: 4, 8, 16, 32, 64 or 128 s and a jitter after the last transmission, or 250 ms after the last deferral. */
  function DueAt(send: Event, es: seq<Event>, outs: seq<Outcome>): int
    requires send.Send? && |outs| == |es|
  {
    if es == [] then send.now + 4_000_000 + Jitter(send.draw) * 1000 else
      var n := |es| - 1;
      if es[n].Tick? && outs[n].Deferred? then es[n].now + 250_000
      else if es[n].Tick? && outs[n].Retransmit? then
        es[n].now + ([4_000, 8_000, 16_000, 32_000, 64_000, 128_000][Min(Retransmissions(outs), 5)] + Jitter(es[n].draw)) * 1000
      else DueAt(send, es[..n], outs[..n])
  }

  /** The one right answer to a poll. */
  function Answer(send: Event, es: seq<Event>, outs: seq<Outcome>, poll: Event): Outcome
    requires send.Send? && |outs| == |es| && poll.Tick?
  {
    if !Waiting(outs) || poll.now < DueAt(send, es, outs) then Nothing
    else if Retransmissions(outs) == 5 then GaveUp
    else if poll.guard(|send.frame|) then Retransmit(send.frame)
    else Deferred
  }

  lemma OutcomesPrefix(s: Sender, es: seq<Event>, k: nat)
    requires k <= |es|
    ensures Outcomes(s, es)[..k] == Outcomes(s, es[..k])
  {
    hide Step, Run;
    if k < |es| {
      var n := |es| - 1;
      OutcomesPrefix(s, es[..n], k);
      assert es[..n][..k] == es[..k];
    } else {
      assert es[..k] == es;
    }
  }

  /** The state after a history is what the history says. */
  predicate Tells(t: Sender, send: Event, es: seq<Event>, outs: seq<Outcome>)
    requires send.Send? && |outs| == |es|
  {
    && (t.phase.WaitAck? <==> Waiting(outs))
    && (t.phase.WaitAck? ==>
          && t.pending == send.frame && t.retry == Retransmissions(outs) <= 5 && t.nextRetry == DueAt(send, es, outs))
  }

  lemma TimeoutIs(retry: nat, draw: Option<nat>)
    requires retry <= 5
    ensures TimeoutMs(retry, draw) == [4_000, 8_000, 16_000, 32_000, 64_000, 128_000][retry] + Jitter(draw)
  {
    assert Pow2(1) == 2 && Pow2(2) == 4 && Pow2(3) == 8;
    assert Pow2(4) == 16 && Pow2(5) == 32;
  }

  lemma TellsStep(t: Sender, send: Event, es: seq<Event>, outs: seq<Outcome>, e: Event)
    requires send.Send? && |outs| == |es| && Tells(t, send, es, outs) && Step(t, e).1 != Accepted
    ensures Tells(Step(t, e).0, send, es + [e], outs + [Step(t, e).1])
    ensures e.Tick? ==> Step(t, e).1 == Answer(send, es, outs, e)
  {
    hide TimeoutMs;
    var out := Step(t, e).1;
    assert (es + [e])[..|es|] == es && (outs + [out])[..|outs|] == outs;
    assert Waiting(outs + [out]) <==> Waiting(outs) && !out.Completed? && !out.GaveUp? && !out.Abandoned? by {
      WaitingSnoc(outs, out);
    }
    if e.Tick? && t.retry < 5 {
      TimeoutIs(t.retry + 1, e.draw);
    }
  }

  lemma WaitingSnoc(outs: seq<Outcome>, out: Outcome)
    ensures Waiting(outs + [out]) <==> Waiting(outs) && !out.Completed? && !out.GaveUp? && !out.Abandoned?
  {
    var outs' := outs + [out];
    assert outs'[|outs|] == out;
    assert forall k :: 0 <= k < |outs| ==> outs'[k] == outs[k];
  }

  lemma {:induction false} HistoryTells(s: Sender, send: Event, es: seq<Event>)
    requires send.Send? && Step(s, send).1 == Accepted
    requires Accepted !in Outcomes(Step(s, send).0, es)
    ensures Tells(Run(Step(s, send).0, es), send, es, Outcomes(Step(s, send).0, es))
    decreases |es|
  {
    var s0 := Step(s, send).0;
    var outs := Outcomes(s0, es);
    if es == [] {
      TimeoutIs(0, send.draw);
    } else {
      hide Step, Run, Outcomes, Tells;
      var n := |es| - 1;
      RunSnoc(s0, es);
      assert outs[n] in outs && Accepted !in outs[..n];
      HistoryTells(s, send, es[..n]);
      TellsStep(Run(s0, es[..n]), send, es[..n], Outcomes(s0, es[..n]), es[n]);
      assert es[..n] + [es[n]] == es;
    }
  }

  /**
   * Every poll of a transfer gets the answer its history calls for: nothing before it is due or
   * once it is over, the end after five retransmissions, a deferral when the duty cycle says no
   * to a frame of this length, and otherwise the frame again.
   */
  lemma PollAnswer(s: Sender, send: Event, es: seq<Event>, k: nat)
    requires send.Send? && Step(s, send).1 == Accepted
    requires Accepted !in Outcomes(Step(s, send).0, es)
    requires k < |es| && es[k].Tick?
    ensures var outs := Outcomes(Step(s, send).0, es);
            outs[k] == Answer(send, es[..k], outs[..k], es[k])
  {
    var s0 := Step(s, send).0;
    var outs := Outcomes(s0, es);
    hide Step, Run, Outcomes, Tells, Answer;
    OutcomesPrefix(s0, es, k);
    OutcomesPrefix(s0, es, k + 1);
    assert Accepted !in outs[..k];
    HistoryTells(s, send, es[..k]);
    assert outs[k] == outs[..k + 1][k] && outs[k] in outs;
    assert es[..k + 1][..k] == es[..k];
    RunSnoc(s0, es[..k + 1]);
    TellsStep(Run(s0, es[..k]), send, es[..k], outs[..k], es[k]);
  }

  /** The guard is obeyed: no frame goes out against it, and after a deferral nothing happens for 250 ms. */
  lemma GuardIsObeyed(s: Sender, send: Event, es: seq<Event>, k: nat)
    requires send.Send? && Step(s, send).1 == Accepted
    requires Accepted !in Outcomes(Step(s, send).0, es)
    requires k < |es|
    ensures var outs := Outcomes(Step(s, send).0, es);
            && (outs[k].Retransmit? ==> es[k].Tick? && es[k].guard(|send.frame|))
            && (outs[k].Deferred? ==> es[k].Tick? && !es[k].guard(|send.frame|))
            && (outs[k].Retransmit? || outs[k].GaveUp? || outs[k].Deferred? ==>
                  es[k].Tick? && forall j :: 0 <= j < k && es[j].Tick? && outs[j].Deferred? ==> es[k].now >= es[j].now + 250_000)
  {
    var s0 := Step(s, send).0;
    var outs := Outcomes(s0, es);
    hide Step, Run, DueAt;
    OnlyTicks(s0, es, k);
    if outs[k].Retransmit? || outs[k].GaveUp? || outs[k].Deferred? {
      hide Outcomes;
      PollAnswer(s, send, es, k);
      DueAfterAll(s, send, es, k);
      forall j | 0 <= j < k && es[j].Tick? && outs[j].Deferred?
        ensures es[k].now >= es[j].now + 250_000
      {
        assert es[..k][j] == es[j] && outs[..k][j] == outs[j];
      }
    }
  }

  lemma {:induction false} OnlyTicks(s: Sender, es: seq<Event>, k: nat)
    requires k < |es|
    ensures var out := Outcomes(s, es)[k]; out.Retransmit? || out.GaveUp? || out.Deferred? ==> es[k].Tick?
    decreases |es|
  {
    hide Run, TimeoutMs;
    if k < |es| - 1 {
      OnlyTicks(s, es[..|es| - 1], k);
    }
  }

  /** While a transfer waits it is due 250 ms after every deferral so far, and after every retransmission. */
  lemma {:induction false} DueAfterAll(s: Sender, send: Event, es: seq<Event>, k: nat)
    requires send.Send? && Step(s, send).1 == Accepted
    requires Accepted !in Outcomes(Step(s, send).0, es)
    requires k <= |es| && Waiting(Outcomes(Step(s, send).0, es)[..k])
    ensures var outs := Outcomes(Step(s, send).0, es)[..k];
            forall j :: 0 <= j < k && es[..k][j].Tick? && (outs[j].Deferred? || outs[j].Retransmit?) ==>
                          DueAt(send, es[..k], outs) >= es[..k][j].now + 250_000
    decreases k
  {
    hide Step, Run, Outcomes;
    var outs := Outcomes(Step(s, send).0, es);
    if k > 0 {
      var n := k - 1;
      assert outs[..k][..n] == outs[..n] && es[..k][..n] == es[..n];
      assert outs[..k] == outs[..n] + [outs[n]];
      WaitingSnoc(outs[..n], outs[n]);
      DueAfterAll(s, send, es, n);
      forall j | 0 <= j < n
        ensures es[..k][j] == es[..n][j] && outs[..k][j] == outs[..n][j]
      {
      }
      if es[n].Tick? {
        PollAnswer(s, send, es, n);
      }
    }
  }

  /** When the timer was last polled: the send counts as the first time. */
  function LastPoll(from: int, es: seq<Event>): int {
    if es == [] then from
    else if es[|es| - 1].Tick? then es[|es| - 1].now
    else LastPoll(from, es[..|es| - 1])
  }

  /** The timer is polled at least every `gap`, and no poll is vetoed. */
  ghost predicate Paced(from: int, es: seq<Event>, gap: nat) {
    forall k :: 0 <= k < |es| && es[k].Tick? ==>
                  && es[k].now <= LastPoll(from, es[..k]) + gap
                  && forall len :: es[k].guard(len)
  }

  /**
   * Without deferrals a transfer is over within 252 s, six jitters and six polling gaps: giving
   * up comes no later, and a transfer still waiting has not been polled that late.
   */
  lemma {:induction false} OverInTime(s: Sender, send: Event, es: seq<Event>, gap: nat)
    requires send.Send? && Step(s, send).1 == Accepted
    requires Accepted !in Outcomes(Step(s, send).0, es)
    requires Paced(send.now, es, gap)
    ensures forall k :: 0 <= k < |es| && Outcomes(Step(s, send).0, es)[k].GaveUp? ==>
                          es[k].Tick? && es[k].now <= send.now + 252_000 * 1000 + 6 * 499 * 1000 + 6 * gap
    ensures var t := Run(Step(s, send).0, es);
            t.phase.WaitAck? ==>
              && LastPoll(send.now, es) < t.nextRetry
              && t.retry <= MAX_RETRIES
              && t.nextRetry <= send.now + (ScheduleMs(t.retry) + (t.retry + 1) * 499) * 1000 + t.retry * gap
  {
    ScheduleIs();
    var s0 := Step(s, send).0;
    var outs := Outcomes(s0, es);
    hide Step, Run, Outcomes, Pow2, ScheduleMs;
    if es == [] {
      RunNone(s0);
      FirstWait(s, send);
    } else {
      var n := |es| - 1;
      RunSnoc(s0, es);
      assert outs[..n] == Outcomes(s0, es[..n]);
      assert outs[n] in outs && Accepted !in outs[..n];
      forall k | 0 <= k < n
        ensures es[..n][..k] == es[..k]
      {
      }
      OverInTime(s, send, es[..n], gap);
      var t := Run(s0, es[..n]);
      if t.phase.WaitAck? {
        StepInTime(t, es[n], send.now, LastPoll(send.now, es[..n]), gap);
      } else {
        StaysOver(t, es[n]);
      }
    }
  }

  lemma StaysOver(t: Sender, e: Event)
    requires !t.phase.WaitAck? && Step(t, e).1 != Accepted
    ensures !Step(t, e).0.phase.WaitAck? && Step(t, e).1 != GaveUp
  {
  }

  lemma StepInTime(t: Sender, e: Event, from: int, last: int, gap: nat)
    requires t.phase.WaitAck? && t.retry <= MAX_RETRIES
    requires last < t.nextRetry <= from + (ScheduleMs(t.retry) + (t.retry + 1) * 499) * 1000 + t.retry * gap
    requires e.Tick? ==> e.now <= last + gap && forall len :: e.guard(len)
    ensures var (t', out) := Step(t, e);
            && (out.GaveUp? ==> e.Tick? && e.now <= from + 252_000 * 1000 + 6 * 499 * 1000 + 6 * gap)
            && (t'.phase.WaitAck? ==>
                  && (if e.Tick? then e.now else last) < t'.nextRetry && t'.retry <= MAX_RETRIES
                  && t'.nextRetry <= from + (ScheduleMs(t'.retry) + (t'.retry + 1) * 499) * 1000 + t'.retry * gap)
  {
    ScheduleIs();
    if e.Tick? && e.now >= t.nextRetry && t.retry < MAX_RETRIES {
      assert (t.retry + 1) * gap == t.retry * gap + gap;
      assert Pow2(t.retry + 1) >= 1;
    }
  }

  /** The counters agree with what was reported, and nothing sent is unaccounted for. */
  predicate Accounted(t: Sender, outs: seq<Outcome>) {
    var waiting := if t.phase.WaitAck? then 1 else 0;
    && t.stats.sent == t.stats.acked + t.stats.giveups + AbandonedCount(outs) + waiting
    && t.stats.retries == Retransmissions(outs)
    && t.stats.retries + MAX_RETRIES * waiting <= MAX_RETRIES * t.stats.sent + t.retry * waiting
    && t.retry <= MAX_RETRIES && t.stats.rttCount <= t.stats.acked
  }

  /** Every accepted send is acknowledged, given up, abandoned by a reset or still waiting. */
  lemma {:induction false} Conservation(es: seq<Event>)
    ensures Accounted(Run(Init(), es), Outcomes(Init(), es))
  {
    hide Step, Run, Outcomes, Accounted;
    if es == [] {
      RunNone(Init());
      NothingYet();
    } else {
      Conservation(es[..|es| - 1]);
      RunSnoc(Init(), es);
      AccountedStep(Run(Init(), es[..|es| - 1]), Outcomes(Init(), es[..|es| - 1]), es[|es| - 1]);
    }
  }

  lemma NothingYet()
    ensures Accounted(Init(), [])
  {
  }

  lemma AccountedStep(t: Sender, outs: seq<Outcome>, e: Event)
    requires Accounted(t, outs)
    ensures Accounted(Step(t, e).0, outs + [Step(t, e).1])
  {
    assert (outs + [Step(t, e).1])[..|outs|] == outs;
  }

  // ---- the statistics, from what was reported -------------------------------------------

  /** When the last frame was taken. */
  function SentAt(es: seq<Event>, outs: seq<Outcome>): int
    requires |outs| == |es|
  {
    if es == [] then 0 else
      var n := |es| - 1;
      if es[n].Send? && outs[n].Accepted? then es[n].now else SentAt(es[..n], outs[..n])
  }

  function RoundTripUs(es: seq<Event>, outs: seq<Outcome>, e: Event, out: Outcome): int
    requires |outs| == |es|
  {
    if e.Ack? && out.Completed? then e.now - SentAt(es, outs) else 0
  }

  /** One more for each report of a kind, and the whole milliseconds of each round trip that took time. */
  function Ledger(es: seq<Event>, outs: seq<Outcome>): Stats
    requires |outs| == |es|
  {
    if es == [] then Stats(0, 0, 0, 0, 0, 0, 0, 0) else
      var n := |es| - 1;
      var s := Ledger(es[..n], outs[..n]);
      var rtt := RoundTripUs(es[..n], outs[..n], es[n], outs[n]);
      Stats(s.sent + One(outs[n].Accepted?), s.retries + One(outs[n].Retransmit?), s.acked + One(outs[n].Completed?),
            s.giveups + One(outs[n].GaveUp?), s.deferred + One(outs[n].Deferred?), s.strayAcks + One(outs[n].Stray?),
            s.rttSumMs + (if rtt > 0 then rtt / 1000 else 0), s.rttCount + One(rtt > 0))
  }

  function One(b: bool): nat {
    if b then 1 else 0
  }

  /** The statistics count exactly what was reported, over every history. */
  lemma {:induction false} StatsAreLedger(es: seq<Event>)
    ensures var t, outs := Run(Init(), es), Outcomes(Init(), es);
            t.stats == Ledger(es, outs) && (t.phase.WaitAck? ==> t.sentAt == SentAt(es, outs))
    decreases |es|
  {
    hide Step, Run, Outcomes;
    if es == [] {
      RunNone(Init());
    } else {
      var n := |es| - 1;
      StatsAreLedger(es[..n]);
      RunSnoc(Init(), es);
      var outs := Outcomes(Init(), es);
      assert outs[..n] == Outcomes(Init(), es[..n]);
      StatsStep(Run(Init(), es[..n]), es[n], SentAt(es[..n], outs[..n]));
    }
  }

  lemma StatsStep(t: Sender, e: Event, sentAt: int)
    requires t.phase.WaitAck? ==> t.sentAt == sentAt
    ensures var (t', out) := Step(t, e); var s := t.stats;
            var rtt := if e.Ack? && out.Completed? then e.now - sentAt else 0;
            && t'.stats == Stats(s.sent + One(out.Accepted?), s.retries + One(out.Retransmit?), s.acked + One(out.Completed?),
                                 s.giveups + One(out.GaveUp?), s.deferred + One(out.Deferred?), s.strayAcks + One(out.Stray?),
                                 s.rttSumMs + (if rtt > 0 then rtt / 1000 else 0), s.rttCount + One(rtt > 0))
            && (t'.phase.WaitAck? ==> t'.sentAt == if e.Send? && out.Accepted? then e.now else sentAt)
  {
    hide TimeoutMs;
  }

  /** A frame of 1 to 230 bytes is taken unless one is in flight, and a refusal changes nothing. */
  lemma TakenIff(s: Sender, send: Event)
    requires send.Send?
    ensures Step(s, send).1 == Accepted <==> !s.phase.WaitAck? && 1 <= |send.frame| <= 230
    ensures Step(s, send).1 != Accepted ==> Step(s, send) == (s, Refused)
  {
  }

  /** Only the acknowledgement of the frame in flight completes it, and only once. */
  lemma CompletedIff(s: Sender, seqNo: nat, now: int)
    ensures Step(s, Ack(seqNo, now)).1 == Completed <==> s.phase.WaitAck? && s.seqNo == seqNo
    ensures Step(s, Ack(seqNo, now)).1 == Completed ==> forall q, t :: Step(Step(s, Ack(seqNo, now)).0, Ack(q, t)).1 == Stray
    ensures Step(s, Ack(seqNo, now)).1 == Completed ==> Step(s, Ack(seqNo, now)).0.pending == []
    ensures Step(s, Ack(seqNo, now)).1 != Completed ==> Step(s, Ack(seqNo, now)).0.(stats := s.stats) == s
  {
  }
}
