/**
 * The rolling duty-cycle limit (ETSI EN 300 220-1, clause 5.4) as the host enforces it, over an
 * unbounded list of transmissions. Airtime is in milliseconds.
 */
module DutyGuard {

  /** A transmission: when it was let through and how long it is on the air. */
  datatype Airtime = Airtime(at: int, duration: real)

  function Recent(log: seq<Airtime>, cutoff: int): seq<Airtime> {
    if log == [] then [] else
      Recent(log[..|log| - 1], cutoff) + if log[|log| - 1].at > cutoff then [log[|log| - 1]] else []
  }

  function Sum(log: seq<Airtime>): real {
    if log == [] then 0.0 else Sum(log[..|log| - 1]) + log[|log| - 1].duration
  }

  predicate HasRoom(kept: seq<Airtime>, tx: Airtime, limit: real, window: nat) {
    Sum(Recent(kept, tx.at - window)) + tx.duration <= limit
  }

  class DutyCycleGuard {
    const limit: real
    const windowMs: nat
    var transmissions: seq<Airtime>

    constructor (limit: real, windowMs: nat)
      ensures transmissions == [] && this.limit == limit && this.windowMs == windowMs
    {
      this.limit, this.windowMs := limit, windowMs;
      transmissions := [];
    }

    method Prune(now: int)
      modifies this`transmissions
      ensures transmissions == StepKept(old(transmissions), Asked(now), limit, windowMs)
    {
      transmissions := Recent(transmissions, now - windowMs);
    }

    method UsedMs(now: int) returns (used: real)
      modifies this`transmissions
      ensures transmissions == StepKept(old(transmissions), Asked(now), limit, windowMs) && used == Sum(transmissions)
    {
      Prune(now);
      used := 0.0;
      for i := 0 to |transmissions|
        invariant used == Sum(transmissions[..i])
      {
        assert transmissions[..i + 1][..i] == transmissions[..i];
        used := used + transmissions[i].duration;
      }
      assert transmissions[..|transmissions|] == transmissions;
    }

    method WouldExceed(duration: real, now: int) returns (exceeds: bool)
      modifies this`transmissions
      ensures transmissions == StepKept(old(transmissions), Asked(now), limit, windowMs)
      ensures exceeds <==> !HasRoom(old(transmissions), Airtime(now, duration), limit, windowMs)
    {
      var used := UsedMs(now);
      exceeds := used + duration > limit;
    }

    method TryRecord(duration: real, now: int) returns (ok: bool)
      modifies this`transmissions
      ensures transmissions == StepKept(old(transmissions), Requested(Airtime(now, duration)), limit, windowMs)
      ensures ok <==> HasRoom(old(transmissions), Airtime(now, duration), limit, windowMs)
    {
      var exceeds := WouldExceed(duration, now);
      if exceeds { return false; }
      transmissions := transmissions + [Airtime(now, duration)];
      return true;
    }
  }

  // ---- whole runs -------------------------------------------------------------------------

  /** A call: a question about the total, or a request to transmit. */
  datatype Call = Asked(at: int) | Requested(tx: Airtime)

  function TimeOf(call: Call): int {
    if call.Asked? then call.at else call.tx.at
  }

  function StepKept(kept: seq<Airtime>, call: Call, limit: real, window: nat): seq<Airtime> {
    var recent := Recent(kept, TimeOf(call) - window);
    if call.Requested? && HasRoom(kept, call.tx, limit, window) then recent + [call.tx] else recent
  }

  /** What the guard keeps after a run. */
  function Kept(calls: seq<Call>, limit: real, window: nat): seq<Airtime> {
    if calls == [] then [] else StepKept(Kept(calls[..|calls| - 1], limit, window), calls[|calls| - 1], limit, window)
  }

  predicate Accepts(calls: seq<Call>, tx: Airtime, limit: real, window: nat) {
    HasRoom(Kept(calls, limit, window), tx, limit, window)
  }

  /** What went on the air. */
  function Log(calls: seq<Call>, limit: real, window: nat): seq<Airtime> {
    if calls == [] then [] else
      var before, call := calls[..|calls| - 1], calls[|calls| - 1];
      var log := Log(before, limit, window);
      if call.Requested? && Accepts(before, call.tx, limit, window) then log + [call.tx] else log
  }

  predicate Orderly(calls: seq<Call>) {
    && (forall i, j :: 0 <= i < j < |calls| ==> TimeOf(calls[i]) <= TimeOf(calls[j]))
    && (forall i :: 0 <= i < |calls| && calls[i].Requested? ==> calls[i].tx.duration >= 0.0)
  }

  /** Airtime within `(from, to]`. */
  function SumWithin(log: seq<Airtime>, from: int, to: int): real {
    if log == [] then 0.0 else
      SumWithin(log[..|log| - 1], from, to) + if from < log[|log| - 1].at <= to then log[|log| - 1].duration else 0.0
  }

  /** Airtime at one moment. */
  function SumAt(log: seq<Airtime>, at: int): real {
    if log == [] then 0.0 else
      SumAt(log[..|log| - 1], at) + if log[|log| - 1].at == at then log[|log| - 1].duration else 0.0
  }

  /** Airtime within `[from, to]`. */
  function ClosedSum(log: seq<Airtime>, from: int, to: int): real {
    if log == [] then 0.0 else
      ClosedSum(log[..|log| - 1], from, to) + if from <= log[|log| - 1].at <= to then log[|log| - 1].duration else 0.0
  }

  function WindowSum(log: seq<Airtime>, from: int, window: nat): real {
    SumWithin(log, from, from + window)
  }

  function ClosedWindowSum(log: seq<Airtime>, from: int, window: nat): real {
    ClosedSum(log, from, from + window)
  }

  /** No window that is open at its start holds more than the limit. */
  ghost predicate Limited(log: seq<Airtime>, limit: real, window: nat) {
    forall from :: WindowSum(log, from, window) <= limit
  }

  /** No closed window holds more than the limit. */
  ghost predicate ClosedLimited(log: seq<Airtime>, limit: real, window: nat) {
    forall from :: ClosedWindowSum(log, from, window) <= limit
  }

  /** Nothing is later, and no airtime is negative. */
  predicate By(log: seq<Airtime>, now: int) {
    forall i :: 0 <= i < |log| ==> log[i].at <= now && log[i].duration >= 0.0
  }

  lemma OrderlyPrefix(calls: seq<Call>)
    requires calls != [] && Orderly(calls)
    ensures Orderly(calls[..|calls| - 1])
  {
  }

  lemma {:induction false} LogBy(calls: seq<Call>, limit: real, window: nat)
    requires calls != [] && Orderly(calls)
    ensures By(Log(calls, limit, window), TimeOf(calls[|calls| - 1]))
    decreases |calls|
  {
    var n := |calls| - 1;
    if n == 0 {
      assert Log(calls[..n], limit, window) == [];
    } else {
      OrderlyPrefix(calls);
      LogBy(calls[..n], limit, window);
    }
  }

  lemma {:induction false} RecentAgain(log: seq<Airtime>, cutoff: int, later: int)
    requires cutoff <= later
    ensures Recent(Recent(log, cutoff), later) == Recent(log, later)
  {
    if log != [] {
      var n := |log| - 1;
      RecentAgain(log[..n], cutoff, later);
      if log[n].at > cutoff {
        RecentSnoc(Recent(log[..n], cutoff), log[n], later);
      } else {
        assert Recent(log[..n], cutoff) + [] == Recent(log[..n], cutoff);
      }
    }
  }

  lemma RecentSnoc(log: seq<Airtime>, tx: Airtime, cutoff: int)
    ensures Recent(log + [tx], cutoff) == Recent(log, cutoff) + if tx.at > cutoff then [tx] else []
  {
    assert (log + [tx])[..|log|] == log;
  }

  lemma {:induction false} RecentSum(log: seq<Airtime>, cutoff: int, now: int)
    requires By(log, now)
    ensures Sum(Recent(log, cutoff)) == SumWithin(log, cutoff, now)
  {
    if log != [] {
      var n := |log| - 1;
      RecentSum(log[..n], cutoff, now);
      var kept := Recent(log[..n], cutoff);
      if log[n].at > cutoff {
        assert (kept + [log[n]])[..|kept|] == kept;
      } else {
        assert kept + [] == kept;
      }
    }
  }

  /** From the last call on, what is kept and what went on the air look the same. */
  lemma {:induction false} KeptIsLog(calls: seq<Call>, limit: real, window: nat, cutoff: int)
    requires Orderly(calls) && (calls != [] ==> cutoff >= TimeOf(calls[|calls| - 1]) - window)
    ensures Recent(Kept(calls, limit, window), cutoff) == Recent(Log(calls, limit, window), cutoff)
    decreases |calls|
  {
    if calls != [] {
      var n := |calls| - 1;
      OrderlyPrefix(calls);
      assert n > 0 ==> TimeOf(calls[n - 1]) <= TimeOf(calls[n]);
      hide Orderly, Recent;
      KeptIsLog(calls[..n], limit, window, cutoff);
      KeepsLog(Kept(calls[..n], limit, window), Log(calls[..n], limit, window), calls[n], limit, window, cutoff);
    }
  }

  lemma KeepsLog(kept: seq<Airtime>, log: seq<Airtime>, call: Call, limit: real, window: nat, cutoff: int)
    requires Recent(kept, cutoff) == Recent(log, cutoff) && cutoff >= TimeOf(call) - window
    ensures var log' := if call.Requested? && HasRoom(kept, call.tx, limit, window) then log + [call.tx] else log;
            Recent(StepKept(kept, call, limit, window), cutoff) == Recent(log', cutoff)
  {
    hide Recent, HasRoom;
    var recent := Recent(kept, TimeOf(call) - window);
    RecentAgain(kept, TimeOf(call) - window, cutoff);
    if call.Requested? {
      RecentSnoc(recent, call.tx, cutoff);
      RecentSnoc(log, call.tx, cutoff);
    }
  }

  lemma SnocCall(calls: seq<Call>, tx: Airtime, limit: real, window: nat)
    ensures var log := Log(calls, limit, window);
            Log(calls + [Requested(tx)], limit, window) == if Accepts(calls, tx, limit, window) then log + [tx] else log
    ensures Orderly(calls + [Requested(tx)]) ==> Orderly(calls) && By(Log(calls, limit, window), tx.at) && tx.duration >= 0.0
  {
    var calls' := calls + [Requested(tx)];
    assert calls'[..|calls|] == calls && calls'[|calls|] == Requested(tx);
    if Orderly(calls') {
      OrderlyPrefix(calls');
      assert calls != [] ==> calls'[|calls| - 1] == calls[|calls| - 1];
      if calls != [] { LogBy(calls, limit, window); }
    }
  }

  lemma LastIsEarlier(calls: seq<Call>, tx: Airtime)
    requires Orderly(calls + [Requested(tx)])
    ensures calls != [] ==> TimeOf(calls[|calls| - 1]) <= tx.at
  {
    var calls' := calls + [Requested(tx)];
    assert calls'[|calls|] == Requested(tx);
    assert calls != [] ==> calls'[|calls| - 1] == calls[|calls| - 1];
  }

  /** With a clock that does not go back, a request is let through exactly when the window that ends with it has room. */
  lemma AcceptsIff(calls: seq<Call>, tx: Airtime, limit: real, window: nat)
    requires Orderly(calls + [Requested(tx)])
    ensures Accepts(calls, tx, limit, window) <==> SumWithin(Log(calls, limit, window), tx.at - window, tx.at) + tx.duration <= limit
  {
    hide Recent, Sum, Log, Kept, SumWithin, By, Orderly;
    SnocCall(calls, tx, limit, window);
    LastIsEarlier(calls, tx);
    KeptIsLog(calls, limit, window, tx.at - window);
    RecentSum(Log(calls, limit, window), tx.at - window, tx.at);
  }

  // ---- windows open at their start --------------------------------------------------------

  lemma SumSnoc(log: seq<Airtime>, tx: Airtime, from: int, to: int)
    ensures SumWithin(log + [tx], from, to) == SumWithin(log, from, to) + if from < tx.at <= to then tx.duration else 0.0
    ensures ClosedSum(log + [tx], from, to) == ClosedSum(log, from, to) + if from <= tx.at <= to then tx.duration else 0.0
  {
    assert (log + [tx])[..|log|] == log;
  }

  /** What a window holds is no more than what one holds that reaches back as far and ends with the log. */
  lemma {:induction false} SumShrinks(log: seq<Airtime>, from: int, to: int, start: int, now: int)
    requires start <= from && By(log, now)
    ensures SumWithin(log, from, to) <= SumWithin(log, start, now)
    ensures ClosedSum(log, from, to) <= ClosedSum(log, start, now)
  {
    if log != [] {
      SumShrinks(log[..|log| - 1], from, to, start, now);
    }
  }

  /** One more transmission keeps the limit exactly when the window that ends with it has room. */
  lemma LimitedSnocIff(log: seq<Airtime>, tx: Airtime, limit: real, window: nat)
    requires Limited(log, limit, window) && By(log, tx.at) && tx.duration >= 0.0 && window > 0
    ensures Limited(log + [tx], limit, window) <==> SumWithin(log, tx.at - window, tx.at) + tx.duration <= limit
  {
    hide SumWithin, ClosedSum, By;
    SumSnoc(log, tx, tx.at - window, tx.at);
    assert WindowSum(log + [tx], tx.at - window, window) == SumWithin(log + [tx], tx.at - window, tx.at);
    if SumWithin(log, tx.at - window, tx.at) + tx.duration <= limit {
      forall from
        ensures WindowSum(log + [tx], from, window) <= limit
      {
        assert WindowSum(log, from, window) <= limit;
        SumSnoc(log, tx, from, from + window);
        if from < tx.at <= from + window {
          SumShrinks(log, from, from + window, tx.at - window, tx.at);
        }
      }
    }
  }

  lemma NoneLimited(limit: real, window: nat)
    requires 0.0 <= limit
    ensures Limited([], limit, window) && ClosedLimited([], limit, window)
  {
  }

  /** In every run with a clock that does not go back, no window open at its start holds more than the limit. */
  lemma {:induction false} NeverOverLimit(calls: seq<Call>, limit: real, window: nat)
    requires Orderly(calls) && 0.0 <= limit && window > 0
    ensures Limited(Log(calls, limit, window), limit, window)
    decreases |calls|
  {
    if calls == [] {
      NoneLimited(limit, window);
    } else {
      var n := |calls| - 1;
      var before, call := calls[..n], calls[n];
      assert calls == before + [call];
      OrderlyPrefix(calls);
      hide Orderly, Accepts, Limited;
      NeverOverLimit(before, limit, window);
      var log := Log(before, limit, window);
      if call.Requested? && Accepts(before, call.tx, limit, window) {
        SnocCall(before, call.tx, limit, window);
        AcceptsIff(before, call.tx, limit, window);
        LimitedSnocIff(log, call.tx, limit, window);
      }
    }
  }

  /** And a request is refused only when letting it through would break that. */
  lemma RefusedOnlyIfOver(calls: seq<Call>, tx: Airtime, limit: real, window: nat)
    requires Orderly(calls + [Requested(tx)]) && 0.0 <= limit && window > 0
    ensures Accepts(calls, tx, limit, window) <==> Limited(Log(calls, limit, window) + [tx], limit, window)
  {
    hide Orderly, Accepts, Limited, SumWithin, Log;
    SnocCall(calls, tx, limit, window);
    NeverOverLimit(calls, limit, window);
    AcceptsIff(calls, tx, limit, window);
    LimitedSnocIff(Log(calls, limit, window), tx, limit, window);
  }

  // ---- closed windows ---------------------------------------------------------------------

  lemma {:induction false} ClosedSplits(log: seq<Airtime>, from: int, to: int)
    requires from <= to
    ensures ClosedSum(log, from, to) == SumAt(log, from) + SumWithin(log, from, to)
  {
    if log != [] {
      ClosedSplits(log[..|log| - 1], from, to);
    }
  }

  lemma {:induction false} SumAtFits(log: seq<Airtime>, at: int, from: int, to: int, now: int)
    requires from < at <= to && By(log, now)
    ensures 0.0 <= SumAt(log, at) <= SumWithin(log, from, to)
  {
    if log != [] {
      SumAtFits(log[..|log| - 1], at, from, to, now);
    }
  }

  /** One more transmission keeps the limit in closed windows exactly when the closed window that ends with it has room. */
  lemma ClosedSnocIff(log: seq<Airtime>, tx: Airtime, limit: real, window: nat)
    requires ClosedLimited(log, limit, window) && By(log, tx.at) && tx.duration >= 0.0
    ensures ClosedLimited(log + [tx], limit, window) <==> ClosedSum(log, tx.at - window, tx.at) + tx.duration <= limit
  {
    hide SumWithin, ClosedSum, By;
    SumSnoc(log, tx, tx.at - window, tx.at);
    assert ClosedWindowSum(log + [tx], tx.at - window, window) == ClosedSum(log + [tx], tx.at - window, tx.at);
    if ClosedSum(log, tx.at - window, tx.at) + tx.duration <= limit {
      forall from
        ensures ClosedWindowSum(log + [tx], from, window) <= limit
      {
        assert ClosedWindowSum(log, from, window) <= limit;
        SumSnoc(log, tx, from, from + window);
        if from <= tx.at <= from + window {
          SumShrinks(log, from, from + window, tx.at - window, tx.at);
        }
      }
    }
  }

  lemma {:induction false} ClosedPrefix(log: seq<Airtime>, tx: Airtime, limit: real, window: nat)
    requires ClosedLimited(log + [tx], limit, window) && tx.duration >= 0.0
    ensures ClosedLimited(log, limit, window)
  {
    hide ClosedSum;
    forall from
      ensures ClosedWindowSum(log, from, window) <= limit
    {
      assert ClosedWindowSum(log + [tx], from, window) <= limit;
      SumSnoc(log, tx, from, from + window);
    }
  }

  /** Airtime sent precisely one window ago, which the guard has forgotten, makes the difference. */
  predicate SlipsThrough(calls: seq<Call>, tx: Airtime, limit: real, window: nat) {
    var log := Log(calls, limit, window);
    var used := SumWithin(log, tx.at - window, tx.at);
    used + tx.duration <= limit < used + SumAt(log, tx.at - window) + tx.duration
  }

  /** A request breaks the limit in closed windows exactly when such airtime makes the difference. */
  lemma BreaksClosedIff(calls: seq<Call>, tx: Airtime, limit: real, window: nat)
    requires Orderly(calls + [Requested(tx)]) && ClosedLimited(Log(calls, limit, window), limit, window)
    ensures !ClosedLimited(Log(calls + [Requested(tx)], limit, window), limit, window) <==> SlipsThrough(calls, tx, limit, window)
  {
    hide Orderly, Accepts, ClosedLimited, ClosedSum, SumAt, SumWithin, Log;
    var log := Log(calls, limit, window);
    SnocCall(calls, tx, limit, window);
    AcceptsIff(calls, tx, limit, window);
    ClosedSnocIff(log, tx, limit, window);
    ClosedSplits(log, tx.at - window, tx.at);
  }

  /** No request of a run slips through. */
  predicate NoneSlips(calls: seq<Call>, limit: real, window: nat) {
    forall k :: 0 <= k < |calls| && calls[k].Requested? ==> !SlipsThrough(calls[..k], calls[k].tx, limit, window)
  }

  lemma NoneSlipsSnoc(calls: seq<Call>, call: Call, limit: real, window: nat)
    ensures NoneSlips(calls + [call], limit, window) <==>
            NoneSlips(calls, limit, window) && (call.Requested? ==> !SlipsThrough(calls, call.tx, limit, window))
  {
    hide SlipsThrough;
    var calls' := calls + [call];
    assert calls'[..|calls|] == calls && calls'[|calls|] == call;
    assert forall k :: 0 <= k < |calls| ==> calls'[..k] == calls[..k] && calls'[k] == calls[k];
  }

  /** A run keeps the limit in every closed window exactly when no request slips through. */
  lemma {:induction false} ClosedLimitIff(calls: seq<Call>, limit: real, window: nat)
    requires Orderly(calls) && 0.0 <= limit
    ensures ClosedLimited(Log(calls, limit, window), limit, window) <==> NoneSlips(calls, limit, window)
    decreases |calls|
  {
    if calls == [] {
      NoneLimited(limit, window);
    } else {
      var n := |calls| - 1;
      var before, call := calls[..n], calls[n];
      assert calls == before + [call];
      OrderlyPrefix(calls);
      assert call.Requested? ==> call.tx.duration >= 0.0;
      hide Orderly, Accepts, ClosedLimited, SlipsThrough, NoneSlips;
      ClosedLimitIff(before, limit, window);
      NoneSlipsSnoc(before, call, limit, window);
      var log := Log(before, limit, window);
      if ClosedLimited(log, limit, window) {
        if call.Requested? { BreaksClosedIff(before, call.tx, limit, window); }
      } else if ClosedLimited(Log(calls, limit, window), limit, window) {
        ClosedPrefix(log, call.tx, limit, window);
      }
    }
  }

  /** In every run a closed window holds at most twice the limit. */
  lemma ClosedAtMostTwice(calls: seq<Call>, limit: real, window: nat, from: int)
    requires Orderly(calls) && 0.0 <= limit && window > 0
    ensures ClosedSum(Log(calls, limit, window), from, from + window) <= 2.0 * limit
  {
    hide Orderly, ClosedSum, SumAt, SumWithin, Log, By;
    var log := Log(calls, limit, window);
    NeverOverLimit(calls, limit, window);
    assert WindowSum(log, from, window) <= limit && WindowSum(log, from - 1, window) <= limit;
    ClosedSplits(log, from, from + window);
    if calls != [] {
      LogBy(calls, limit, window);
      SumAtFits(log, from, from - 1, from - 1 + window, TimeOf(calls[|calls| - 1]));
    } else {
      NothingSent(limit, window, from);
    }
  }

  lemma NothingSent(limit: real, window: nat, at: int)
    ensures SumAt(Log([], limit, window), at) == 0.0
  {
  }

  /** And twice the limit is reached: two full transmissions, one window apart. */
  lemma ClosedHoldsTwice(limit: real, window: nat)
    requires window > 0 && limit > 0.0
    ensures var calls := [Requested(Airtime(0, limit)), Requested(Airtime(window, limit))];
            Orderly(calls) && ClosedSum(Log(calls, limit, window), 0, window) == 2.0 * limit
  {
    var first, second := Airtime(0, limit), Airtime(window, limit);
    OneCall(first, limit, window);
    RecentOne(first, 0);
    SnocCall([Requested(first)], second, limit, window);
    assert [Requested(first)] + [Requested(second)] == [Requested(first), Requested(second)];
    PairSum(first, second, 0, window);
  }

  /** The limit needs a clock that does not go back: a question asked late makes the guard forget. */
  lemma ClockBackBreaksTheLimit(limit: real, window: nat)
    requires window > 1 && limit > 0.0
    ensures var calls := [Requested(Airtime(0, limit)), Asked(window), Requested(Airtime(1, limit))];
            SumWithin(Log(calls, limit, window), -1, window - 1) == 2.0 * limit
  {
    var first, second := Airtime(0, limit), Airtime(1, limit);
    var calls := [Requested(first), Asked(window)];
    OneCall(first, limit, window);
    RecentOne(first, 0);
    assert calls[..1] == [Requested(first)];
    assert Kept(calls, limit, window) == [] && Log(calls, limit, window) == [first];
    SnocCall(calls, second, limit, window);
    assert calls + [Requested(second)] == [Requested(first), Asked(window), Requested(second)];
    PairSum(first, second, -1, window - 1);
  }

  lemma OneCall(tx: Airtime, limit: real, window: nat)
    requires tx.duration <= limit
    ensures Kept([Requested(tx)], limit, window) == [tx] == Log([Requested(tx)], limit, window)
  {
    var calls := [Requested(tx)];
    assert calls[..0] == [];
    assert Accepts([], tx, limit, window);
    assert StepKept([], calls[0], limit, window) == [tx];
  }

  lemma RecentOne(tx: Airtime, cutoff: int)
    ensures Recent([tx], cutoff) == (if tx.at > cutoff then [tx] else []) && Sum([tx]) == tx.duration
  {
    assert [tx][..0] == [];
  }

  lemma PairSum(first: Airtime, second: Airtime, from: int, to: int)
    requires from < first.at <= second.at <= to || from == first.at <= second.at <= to
    ensures ClosedSum([first, second], from, to) == first.duration + second.duration
    ensures from < first.at ==> SumWithin([first, second], from, to) == first.duration + second.duration
  {
    assert [first, second][..1] == [first] && [first][..0] == [];
    assert ClosedSum([first], from, to) == first.duration;
    assert from < first.at ==> SumWithin([first], from, to) == first.duration;
  }
}
