/**
 * The rolling duty-cycle limit (ETSI EN 300 220-1, clause 5.4) as the bridge enforces it, over a
 * fixed ring of transmissions. The limit is in milliseconds of airtime per window.
 */
module DutyCycle {
  import opened Bytes

  const CAPACITY := 256

  /** A transmission as the ring keeps it: the clock is the low 32 bits of the time. */
  datatype Entry = Entry(atMs: nat, durationMs: nat)

  /** What the tracker knows: the transmissions in its ring, oldest first, and their running total. */
  datatype Tracker = Tracker(queue: seq<Entry>, used: nat)

  /** 32-bit subtraction. */
  function Minus(a: nat, b: nat): nat {
    (a - b) % TWO32
  }

  function Prune(t: Tracker, now: nat, window: nat): Tracker
    decreases |t.queue|
  {
    if t.queue == [] || Minus(now, t.queue[0].atMs) <= window then t
    else Prune(Tracker(t.queue[1..], Minus(t.used, t.queue[0].durationMs)), now, window)
  }

  /** Once the ring is full the oldest entry gives way. */
  function Push(queue: seq<Entry>, e: Entry): seq<Entry> {
    (if |queue| >= CAPACITY then queue[1..] else queue) + [e]
  }

  predicate Exceeds(t: Tracker, duration: nat, limit: nat) {
    (t.used + duration) % TWO32 > limit
  }

  function TryRecord(t: Tracker, duration: nat, now: nat, limit: nat, window: nat): (Tracker, bool) {
    var p := Prune(t, now, window);
    if Exceeds(p, duration, limit) then (p, false)
    else (Tracker(Push(p.queue, Entry(now, duration)), (p.used + duration) % TWO32), true)
  }

  class DutyCycleTracker {
    const limit: nat
    const windowMs: nat
    const entries: array<Entry>
    var head: nat
    var count: nat
    var usedMs: nat

    ghost predicate Valid()
      reads this
    {
      entries.Length == CAPACITY && head < CAPACITY && count <= CAPACITY
    }

    ghost function View(): Tracker
      reads this, entries
      requires Valid()
    {
      Tracker(Ring(entries[..], head, count), usedMs)
    }

    constructor (limit: nat, windowMs: nat)
      ensures Valid() && View() == Tracker([], 0) && this.limit == limit && this.windowMs == windowMs && fresh(entries)
    {
      this.limit, this.windowMs := limit, windowMs;
      entries := new Entry[CAPACITY](_ => Entry(0, 0));
      head, count, usedMs := 0, 0, 0;
    }

    /** Forgets what has left the window. */
    method DoPrune(now: nat)
      requires Valid()
      modifies this`count, this`usedMs
      ensures Valid() && View() == Prune(old(View()), now, windowMs)
    {
      while count > 0
        invariant Valid() && Prune(View(), now, windowMs) == Prune(old(View()), now, windowMs)
      {
        var oldest := (head + CAPACITY - count) % CAPACITY;
        RingFirst(entries[..], head, count);
        if Minus(now, entries[oldest].atMs) <= windowMs { break; }
        usedMs := Minus(usedMs, entries[oldest].durationMs);
        count := count - 1;
      }
    }

    method WouldExceed(durationMs: nat, now: nat) returns (exceeds: bool)
      requires Valid()
      modifies this`count, this`usedMs
      ensures Valid() && View() == Prune(old(View()), now, windowMs) && exceeds == Exceeds(View(), durationMs, limit)
    {
      DoPrune(now);
      exceeds := (usedMs + durationMs) % TWO32 > limit;
    }

    /** Puts one transmission on the account, or refuses it and leaves the account pruned. */
    method DoTryRecord(durationMs: nat, now: nat) returns (ok: bool)
      requires Valid()
      modifies this`head, this`count, this`usedMs, entries
      ensures Valid() && (View(), ok) == TryRecord(old(View()), durationMs, now, limit, windowMs)
    {
      var exceeds := WouldExceed(durationMs, now);
      if exceeds { return false; }
      RingPush(entries[..], head, count, Entry(now, durationMs));
      entries[head] := Entry(now, durationMs);
      head := (head + 1) % CAPACITY;
      if count < CAPACITY { count := count + 1; }
      usedMs := (usedMs + durationMs) % TWO32;
      return true;
    }
  }

  /** The last `count` slots written before `head`, oldest first. */
  function Ring(entries: seq<Entry>, head: nat, count: nat): (q: seq<Entry>)
    requires |entries| == CAPACITY && head < CAPACITY && count <= CAPACITY
    ensures |q| == count
  {
    seq(count, i requires 0 <= i < count => entries[(head + CAPACITY - count + i) % CAPACITY])
  }

  lemma RingFirst(entries: seq<Entry>, head: nat, count: nat)
    requires |entries| == CAPACITY && head < CAPACITY && 0 < count <= CAPACITY
    ensures Ring(entries, head, count)[0] == entries[(head + CAPACITY - count) % CAPACITY]
    ensures Ring(entries, head, count)[1..] == Ring(entries, head, count - 1)
  {
  }

  lemma RingPush(entries: seq<Entry>, head: nat, count: nat, e: Entry)
    requires |entries| == CAPACITY && head < CAPACITY && count <= CAPACITY
    ensures Ring(entries[head := e], (head + 1) % CAPACITY, if count < CAPACITY then count + 1 else count) == Push(Ring(entries, head, count), e)
  {
    var was := Ring(entries, head, count);
    var now := Ring(entries[head := e], (head + 1) % CAPACITY, if count < CAPACITY then count + 1 else count);
    var drop := if count < CAPACITY then 0 else 1;
    forall i | 0 <= i < |now|
      ensures now[i] == if i + drop < count then was[i + drop] else e
    {
      if i + drop < count {
        assert ((head + 1) % CAPACITY + CAPACITY - |now| + i) % CAPACITY == (head + CAPACITY - count + i + drop) % CAPACITY;
      } else {
        assert ((head + 1) % CAPACITY + CAPACITY - |now| + i) % CAPACITY == head;
      }
    }
  }

  // ---- whole runs ---------------------------------------------------------------------

  /** A transmission asked for at a time that does not wrap. */
  datatype Tx = Tx(at: nat, duration: nat)

  function Run(txs: seq<Tx>, limit: nat, window: nat): Tracker {
    if txs == [] then Tracker([], 0) else
      var tx := txs[|txs| - 1];
      TryRecord(Run(txs[..|txs| - 1], limit, window), tx.duration, tx.at % TWO32, limit, window).0
  }

  predicate LastAccepted(txs: seq<Tx>, limit: nat, window: nat)
    requires txs != []
  {
    var tx := txs[|txs| - 1];
    TryRecord(Run(txs[..|txs| - 1], limit, window), tx.duration, tx.at % TWO32, limit, window).1
  }

  /** What went on the air. */
  function Sent(txs: seq<Tx>, limit: nat, window: nat): seq<Tx> {
    if txs == [] then [] else
      Sent(txs[..|txs| - 1], limit, window) + if LastAccepted(txs, limit, window) then [txs[|txs| - 1]] else []
  }

  predicate Monotone(txs: seq<Tx>) {
    forall i, j :: 0 <= i < j < |txs| ==> txs[i].at <= txs[j].at
  }

  /** The total before a request, once the ring has been pruned for it. */
  function UsedBefore(txs: seq<Tx>, k: nat, limit: nat, window: nat): nat
    requires k < |txs|
  {
    Prune(Run(txs[..k], limit, window), txs[k].at % TWO32, window).used
  }

  predicate Accepted(txs: seq<Tx>, k: nat, limit: nat, window: nat)
    requires k < |txs|
  {
    !Exceeds(Prune(Run(txs[..k], limit, window), txs[k].at % TWO32, window), txs[k].duration, limit)
  }

  /** No request is let through because the 32-bit sum of used and duration overflows. */
  predicate NoOverflow(txs: seq<Tx>, limit: nat, window: nat) {
    forall k :: 0 <= k < |txs| && Accepted(txs, k, limit, window) ==> UsedBefore(txs, k, limit, window) + txs[k].duration < TWO32
  }

  /** Airtime from `from` on. */
  function Since(log: seq<Tx>, from: int): nat {
    if log == [] then 0 else
      Since(log[..|log| - 1], from) + if log[|log| - 1].at >= from then log[|log| - 1].duration else 0
  }

  /** Airtime within a closed window. */
  function Within(log: seq<Tx>, from: int, to: int): nat {
    if log == [] then 0 else
      Within(log[..|log| - 1], from, to) + if from <= log[|log| - 1].at <= to then log[|log| - 1].duration else 0
  }

  function Total(queue: seq<Entry>): nat {
    if queue == [] then 0 else queue[0].durationMs + Total(queue[1..])
  }

  /** The ring holds the tail of what was sent. */
  predicate Matches(queue: seq<Entry>, log: seq<Tx>) {
    |queue| <= |log| && forall i :: 0 <= i < |queue| ==>
                                      var tx := log[|log| - |queue| + i];
                                      queue[i] == Entry(tx.at % TWO32, tx.duration)
  }

  function Forgotten(t: Tracker, log: seq<Tx>): seq<Tx>
    requires |t.queue| <= |log|
  {
    log[..|log| - |t.queue|]
  }

  /** The total covers the ring, and what the ring no longer holds but the window still does. */
  predicate Covers(t: Tracker, log: seq<Tx>, now: int, window: nat) {
    Matches(t.queue, log) && t.used >= Total(t.queue) + Since(Forgotten(t, log), now - window)
  }

  lemma {:induction false} TotalSnoc(queue: seq<Entry>, e: Entry)
    ensures Total(queue + [e]) == Total(queue) + e.durationMs
  {
    if queue == [] {
      assert queue + [e] == [e];
    } else {
      assert (queue + [e])[1..] == queue[1..] + [e];
      TotalSnoc(queue[1..], e);
    }
  }

  lemma SinceSnoc(log: seq<Tx>, tx: Tx, from: int)
    ensures Since(log + [tx], from) == Since(log, from) + if tx.at >= from then tx.duration else 0
  {
    assert (log + [tx])[..|log|] == log;
  }

  lemma {:induction false} SinceLater(log: seq<Tx>, from: int, later: int)
    requires from <= later
    ensures Since(log, later) <= Since(log, from)
  {
    if log != [] {
      SinceLater(log[..|log| - 1], from, later);
    }
  }

  /** Pruning forgets only what has truly left the window, even when the clock has wrapped. */
  lemma {:induction false} PruneCovers(t: Tracker, log: seq<Tx>, now: nat, window: nat)
    requires Covers(t, log, now, window) && t.used < TWO32
    requires forall i :: 0 <= i < |log| ==> log[i].at <= now
    ensures var p := Prune(t, now % TWO32, window);
            Covers(p, log, now, window) && p.used <= t.used
    decreases |t.queue|
  {
    if t.queue != [] && Minus(now % TWO32, t.queue[0].atMs) > window {
      var cut := |log| - |t.queue|;
      var tx := log[cut];
      assert t.queue[0] == Entry(tx.at % TWO32, tx.duration);
      WrappedAge(now, tx.at);
      var rest := Tracker(t.queue[1..], Minus(t.used, tx.duration));
      assert rest.used == t.used - tx.duration;
      assert log[..cut + 1] == log[..cut] + [tx];
      SinceSnoc(log[..cut], tx, now - window);
      MatchesTail(t.queue, log);
      hide Matches;
      PruneCovers(rest, log, now, window);
    }
  }

  lemma MatchesTail(queue: seq<Entry>, log: seq<Tx>)
    requires queue != [] && Matches(queue, log)
    ensures Matches(queue[1..], log)
  {
    var cut := |log| - |queue|;
    forall i | 0 <= i < |queue| - 1
      ensures queue[1..][i] == Entry(log[cut + 1 + i].at % TWO32, log[cut + 1 + i].duration)
    {
      assert queue[1..][i] == queue[i + 1];
    }
  }

  /** A 32-bit age never overstates. */
  lemma WrappedAge(now: nat, at: nat)
    requires at <= now
    ensures Minus(now % TWO32, at % TWO32) == (now - at) % TWO32 <= now - at
  {
  }

  /** Recording keeps the total covering, whether or not the ring overwrites a live entry. */
  lemma PushCovers(t: Tracker, log: seq<Tx>, tx: Tx, window: nat)
    requires Covers(t, log, tx.at, window) && |t.queue| <= CAPACITY
    ensures var e := Entry(tx.at % TWO32, tx.duration);
            Covers(Tracker(Push(t.queue, e), t.used + tx.duration), log + [tx], tx.at, window)
  {
    hide Total, Since, Matches;
    var e := Entry(tx.at % TWO32, tx.duration);
    MatchesPush(t.queue, log, tx);
    if |t.queue| >= CAPACITY {
      var cut := |log| - |t.queue|;
      MatchesFirst(t.queue, log);
      TotalSnoc(t.queue[1..], e);
      assert (log + [tx])[..cut + 1] == log[..cut] + [log[cut]];
      SinceSnoc(log[..cut], log[cut], tx.at - window);
      assert Forgotten(Tracker(Push(t.queue, e), t.used + tx.duration), log + [tx]) == log[..cut] + [log[cut]];
    } else {
      TotalSnoc(t.queue, e);
      assert Forgotten(Tracker(Push(t.queue, e), t.used + tx.duration), log + [tx]) == log[..|log| - |t.queue|];
    }
  }

  lemma MatchesPush(queue: seq<Entry>, log: seq<Tx>, tx: Tx)
    requires Matches(queue, log)
    ensures |queue| <= |log| && Matches(Push(queue, Entry(tx.at % TWO32, tx.duration)), log + [tx])
  {
  }

  lemma MatchesFirst(queue: seq<Entry>, log: seq<Tx>)
    requires queue != [] && Matches(queue, log)
    ensures |queue| <= |log| && Total(queue) == log[|log| - |queue|].duration + Total(queue[1..])
  {
  }

  predicate AllBy(log: seq<Tx>, now: int) {
    forall i :: 0 <= i < |log| ==> log[i].at <= now
  }

  function LastAt(txs: seq<Tx>): nat {
    if txs == [] then 0 else txs[|txs| - 1].at
  }

  /** The tracker never undercounts what is in the window, and never lets its total pass the limit. */
  lemma {:induction false} NeverUndercounts(txs: seq<Tx>, limit: nat, window: nat)
    requires Monotone(txs) && NoOverflow(txs, limit, window) && limit < TWO32
    ensures var t, log := Run(txs, limit, window), Sent(txs, limit, window);
            && Covers(t, log, LastAt(txs), window) && t.used <= limit && |t.queue| <= CAPACITY && AllBy(log, LastAt(txs))
    decreases |txs|
  {
    if txs != [] {
      var n := |txs| - 1;
      var before := txs[..n];
      ShorterIsFine(txs, limit, window);
      NeverUndercounts(before, limit, window);
      RecordCovers(Run(before, limit, window), Sent(before, limit, window), LastAt(before), txs[n], limit, window);
    }
  }

  lemma ShorterIsFine(txs: seq<Tx>, limit: nat, window: nat)
    requires txs != [] && Monotone(txs) && NoOverflow(txs, limit, window)
    ensures var n := |txs| - 1;
            Monotone(txs[..n]) && NoOverflow(txs[..n], limit, window) && LastAt(txs[..n]) <= txs[n].at
    ensures Accepted(txs, |txs| - 1, limit, window) ==> UsedBefore(txs, |txs| - 1, limit, window) + txs[|txs| - 1].duration < TWO32
  {
    hide Run, Prune;
    NoOverflowSnoc(txs, limit, window);
  }

  lemma NoOverflowSnoc(txs: seq<Tx>, limit: nat, window: nat)
    requires txs != []
    ensures var n := |txs| - 1;
            NoOverflow(txs, limit, window) <==>
            NoOverflow(txs[..n], limit, window) && (Accepted(txs, n, limit, window) ==> UsedBefore(txs, n, limit, window) + txs[n].duration < TWO32)
  {
    hide Run, Prune, Exceeds;
    var n := |txs| - 1;
    assert forall k :: 0 <= k < n ==> txs[..n][..k] == txs[..k] && txs[..n][k] == txs[k];
    assert forall k :: 0 <= k < n ==> (Accepted(txs[..n], k, limit, window) <==> Accepted(txs, k, limit, window));
    assert forall k :: 0 <= k < n ==> UsedBefore(txs[..n], k, limit, window) == UsedBefore(txs, k, limit, window);
  }

  lemma RecordCovers(t: Tracker, log: seq<Tx>, last: int, tx: Tx, limit: nat, window: nat)
    requires Covers(t, log, last, window) && t.used <= limit < TWO32 && |t.queue| <= CAPACITY && AllBy(log, last) && last <= tx.at
    requires var p := Prune(t, tx.at % TWO32, window); !Exceeds(p, tx.duration, limit) ==> p.used + tx.duration < TWO32
    ensures var (t', ok) := TryRecord(t, tx.duration, tx.at % TWO32, limit, window);
            var log' := log + if ok then [tx] else [];
            Covers(t', log', tx.at, window) && t'.used <= limit && |t'.queue| <= CAPACITY && AllBy(log', tx.at)
  {
    hide Prune;
    LaterCovers(t, log, last, tx.at, window);
    var p := Prune(t, tx.at % TWO32, window);
    PruneShrinks(t, tx.at % TWO32, window);
    if Exceeds(p, tx.duration, limit) {
      assert log + [] == log;
    } else {
      PushCovers(p, log, tx, window);
    }
  }

  lemma {:induction false} PruneShrinks(t: Tracker, now: nat, window: nat)
    ensures |Prune(t, now, window).queue| <= |t.queue|
    decreases |t.queue|
  {
    if t.queue != [] && Minus(now, t.queue[0].atMs) > window {
      PruneShrinks(Tracker(t.queue[1..], Minus(t.used, t.queue[0].durationMs)), now, window);
    }
  }

  /** Everything since a time is in the ring or forgotten. */
  lemma {:induction false} SinceIsCovered(t: Tracker, log: seq<Tx>, now: int, window: nat)
    requires Covers(t, log, now, window)
    ensures Since(log, now - window) <= t.used
  {
    SinceSplit(t.queue, log, now - window);
  }

  lemma {:induction false} SinceSplit(queue: seq<Entry>, log: seq<Tx>, from: int)
    requires Matches(queue, log)
    ensures Since(log, from) <= Total(queue) + Since(log[..|log| - |queue|], from)
    decreases |queue|
  {
    if queue == [] {
      assert log[..|log|] == log;
    } else {
      var n := |log| - 1;
      var init := queue[..|queue| - 1];
      assert queue == init + [queue[|queue| - 1]];
      TotalSnoc(init, queue[|queue| - 1]);
      SinceSplit(init, log[..n], from);
      assert log[..n][..n - |init|] == log[..|log| - |queue|];
    }
  }

  /**
   * In every run with a clock that does not go back and in which no request slips through by a
   * 32-bit overflow, the airtime in any closed window is within the limit, even when the ring
   * has overwritten entries that were still live.
   */
  lemma {:induction false} AirtimeBound(txs: seq<Tx>, limit: nat, window: nat, from: int)
    requires Monotone(txs) && NoOverflow(txs, limit, window) && limit < TWO32
    ensures Within(Sent(txs, limit, window), from, from + window) <= limit
    decreases |txs|
  {
    hide Run, TryRecord, Monotone, NoOverflow, LastAccepted, Covers, AllBy;
    if txs != [] {
      var n := |txs| - 1;
      ShorterIsFine(txs, limit, window);
      AirtimeBound(txs[..n], limit, window, from);
      var log := Sent(txs, limit, window);
      if LastAccepted(txs, limit, window) && from <= txs[n].at <= from + window {
        NeverUndercounts(txs, limit, window);
        SinceIsCovered(Run(txs, limit, window), log, txs[n].at, window);
        WithinIsSince(log, from, from + window, txs[n].at - window);
      } else if LastAccepted(txs, limit, window) {
        assert log[..|log| - 1] == Sent(txs[..n], limit, window);
      } else {
        assert log == Sent(txs[..n], limit, window);
      }
    }
  }

  lemma {:induction false} WithinIsSince(log: seq<Tx>, from: int, to: int, start: int)
    requires start <= from
    ensures Within(log, from, to) <= Since(log, start)
  {
    if log != [] {
      WithinIsSince(log[..|log| - 1], from, to, start);
    }
  }

  /** The closed window that begins at `from`. */
  function WindowSum(log: seq<Tx>, from: int, window: nat): nat {
    Within(log, from, from + window)
  }

  ghost predicate Limited(log: seq<Tx>, limit: nat, window: nat) {
    forall from :: WindowSum(log, from, window) <= limit
  }

  /** The bound's condition is exact: the limit holds in every window unless a request slips through. */
  lemma AirtimeBoundIff(txs: seq<Tx>, limit: nat, window: nat)
    requires Monotone(txs) && 2 * limit < TWO32
    ensures Limited(Sent(txs, limit, window), limit, window) <==> NoOverflow(txs, limit, window)
  {
    hide Sent, Within, NoOverflow, Monotone;
    if NoOverflow(txs, limit, window) {
      forall from
        ensures WindowSum(Sent(txs, limit, window), from, window) <= limit
      {
        AirtimeBound(txs, limit, window, from);
      }
    } else {
      var from := OverflowExceeds(txs, limit, window);
      assert WindowSum(Sent(txs, limit, window), from, window) > limit;
    }
  }

  /** A request that slips through is alone longer than the limit. */
  lemma {:induction false} OverflowExceeds(txs: seq<Tx>, limit: nat, window: nat) returns (from: int)
    requires Monotone(txs) && 2 * limit < TWO32 && !NoOverflow(txs, limit, window)
    ensures Within(Sent(txs, limit, window), from, from + window) > limit
    decreases |txs|
  {
    hide Run, Prune, Accepted, UsedBefore, Covers;
    assert txs != [];
    hide NoOverflow;
    var n := |txs| - 1;
    NoOverflowSnoc(txs, limit, window);
    var log, log' := Sent(txs[..n], limit, window), Sent(txs, limit, window);
    assert log' != log ==> log'[..|log|] == log;
    if NoOverflow(txs[..n], limit, window) {
      LongRequest(txs, limit, window);
      from := txs[n].at;
    } else {
      from := OverflowExceeds(txs[..n], limit, window);
    }
  }

  lemma LongRequest(txs: seq<Tx>, limit: nat, window: nat)
    requires txs != [] && Monotone(txs) && 2 * limit < TWO32 && NoOverflow(txs[..|txs| - 1], limit, window)
    requires var n := |txs| - 1; Accepted(txs, n, limit, window) && UsedBefore(txs, n, limit, window) + txs[n].duration >= TWO32
    ensures txs[|txs| - 1].duration > limit && LastAccepted(txs, limit, window)
  {
    hide Run, Prune, NoOverflow, Covers, Sent;
    var n := |txs| - 1;
    NeverUndercounts(txs[..n], limit, window);
    LaterCovers(Run(txs[..n], limit, window), Sent(txs[..n], limit, window), LastAt(txs[..n]), txs[n].at, window);
  }

  lemma LaterCovers(t: Tracker, log: seq<Tx>, last: int, now: nat, window: nat)
    requires Covers(t, log, last, window) && AllBy(log, last) && last <= now && t.used < TWO32
    ensures Covers(Prune(t, now % TWO32, window), log, now, window) && Prune(t, now % TWO32, window).used <= t.used
  {
    hide Prune, Total;
    assert |t.queue| <= |log|;
    hide Matches;
    SinceLater(Forgotten(t, log), last - window, now - window);
    PruneCovers(t, log, now, window);
  }

  // ---- when the total is exact, and when it overflows ------------------------------------

  /** No request comes so late that an age might wrap, and none finds the ring full of live entries. */
  predicate Spaced(txs: seq<Tx>, limit: nat, window: nat) {
    && (forall k :: 0 < k < |txs| ==> txs[k].at - txs[k - 1].at < TWO32 - window)
    && (forall k :: 0 <= k < |txs| ==> |Prune(Run(txs[..k], limit, window), txs[k].at % TWO32, window).queue| < 256)
  }

  /** The total is that of the ring, and the ring is what the window holds. */
  predicate Exact(t: Tracker, log: seq<Tx>, now: int, window: nat) {
    && Matches(t.queue, log) && t.used == Total(t.queue)
    && (forall i :: 0 <= i < |log| - |t.queue| ==> log[i].at < now - window)
    && (forall i :: |log| - |t.queue| <= i < |log| ==> log[i].at >= now - window)
    && (forall i, j :: 0 <= i < j < |log| ==> log[i].at <= log[j].at)
  }

  lemma {:induction false} PruneExact(t: Tracker, log: seq<Tx>, now: nat, window: nat)
    requires Matches(t.queue, log) && t.used == Total(t.queue) < TWO32
    requires forall i :: 0 <= i < |log| - |t.queue| ==> log[i].at < now - window
    requires forall i :: |log| - |t.queue| <= i < |log| ==> log[i].at <= now < log[i].at + TWO32
    requires forall i, j :: 0 <= i < j < |log| ==> log[i].at <= log[j].at
    ensures Exact(Prune(t, now % TWO32, window), log, now, window)
    decreases |t.queue|
  {
    if t.queue != [] {
      var cut := |log| - |t.queue|;
      var tx := log[cut];
      assert t.queue[0] == Entry(tx.at % TWO32, tx.duration);
      TrueAge(now, tx.at);
      if now - tx.at > window {
        var rest := Tracker(t.queue[1..], Minus(t.used, tx.duration));
        MatchesTail(t.queue, log);
        hide Matches;
        PruneExact(rest, log, now, window);
      }
    }
  }

  lemma TrueAge(now: nat, at: nat)
    requires at <= now < at + TWO32
    ensures Minus(now % TWO32, at % TWO32) == now - at
  {
    WrappedAge(now, at);
  }

  /** Until the ring overwrites a live entry, the total is exactly the airtime in the window. */
  lemma ExactUntilFull(txs: seq<Tx>, limit: nat, window: nat)
    requires Monotone(txs) && NoOverflow(txs, limit, window) && Spaced(txs, limit, window) && limit < TWO32 && window < TWO32
    ensures Run(txs, limit, window).used == Since(Sent(txs, limit, window), LastAt(txs) - window)
  {
    hide Run, Sent, Monotone, NoOverflow, Spaced, AllBy, Matches, Total, Since;
    ExactRun(txs, limit, window);
    SinceIsTotal(Run(txs, limit, window).queue, Sent(txs, limit, window), LastAt(txs) - window);
  }

  lemma {:induction false} ExactRun(txs: seq<Tx>, limit: nat, window: nat)
    requires Monotone(txs) && NoOverflow(txs, limit, window) && Spaced(txs, limit, window) && limit < TWO32 && window < TWO32
    ensures var t, log := Run(txs, limit, window), Sent(txs, limit, window);
            Exact(t, log, LastAt(txs), window) && AllBy(log, LastAt(txs)) && t.used <= limit
    decreases |txs|
  {
    hide Exact, AllBy, TryRecord;
    if txs != [] {
      var n := |txs| - 1;
      ShorterIsFine(txs, limit, window);
      ShorterIsSpaced(txs, limit, window);
      hide NoOverflow, Monotone;
      ExactRun(txs[..n], limit, window);
      RecordExact(Run(txs[..n], limit, window), Sent(txs[..n], limit, window), LastAt(txs[..n]), txs[n], limit, window);
    } else {
      NothingSent(window);
    }
  }

  lemma NothingSent(window: nat)
    ensures Exact(Tracker([], 0), [], 0, window) && AllBy([], 0)
  {
  }

  lemma ShorterIsSpaced(txs: seq<Tx>, limit: nat, window: nat)
    requires txs != [] && Spaced(txs, limit, window)
    ensures Spaced(txs[..|txs| - 1], limit, window)
  {
    var n := |txs| - 1;
    forall k | 0 <= k < n
      ensures |Prune(Run(txs[..n][..k], limit, window), txs[..n][k].at % TWO32, window).queue| < 256
    {
      assert txs[..n][..k] == txs[..k];
    }
  }

  lemma RecordExact(t: Tracker, log: seq<Tx>, last: int, tx: Tx, limit: nat, window: nat)
    requires Exact(t, log, last, window) && AllBy(log, last) && t.used <= limit < TWO32 && window < TWO32
    requires last <= tx.at && (log == [] || tx.at - last < TWO32 - window)
    requires var p := Prune(t, tx.at % TWO32, window); !Exceeds(p, tx.duration, limit) ==> p.used + tx.duration < TWO32
    requires |Prune(t, tx.at % TWO32, window).queue| < 256
    ensures var (t', ok) := TryRecord(t, tx.duration, tx.at % TWO32, limit, window);
            var log' := log + if ok then [tx] else [];
            Exact(t', log', tx.at, window) && AllBy(log', tx.at) && t'.used <= limit
  {
    hide Prune, Total, Exact, Matches;
    PruneExactLater(t, log, last, tx.at, window);
    var p := Prune(t, tx.at % TWO32, window);
    if Exceeds(p, tx.duration, limit) {
      assert log + [] == log;
    } else {
      ExactPush(p, log, tx, window);
    }
  }

  lemma PruneExactLater(t: Tracker, log: seq<Tx>, last: int, now: nat, window: nat)
    requires Exact(t, log, last, window) && AllBy(log, last) && t.used < TWO32 && window < TWO32
    requires last <= now && (log == [] || now - last < TWO32 - window)
    ensures Exact(Prune(t, now % TWO32, window), log, now, window) && Prune(t, now % TWO32, window).used <= t.used
  {
    hide Prune, Total;
    PruneExact(t, log, now, window);
    PruneLowers(t, log, now, window);
  }

  lemma ExactPush(t: Tracker, log: seq<Tx>, tx: Tx, window: nat)
    requires Exact(t, log, tx.at, window) && AllBy(log, tx.at) && |t.queue| < CAPACITY
    ensures var e := Entry(tx.at % TWO32, tx.duration);
            Exact(Tracker(Push(t.queue, e), t.used + tx.duration), log + [tx], tx.at, window)
  {
    hide Total;
    TotalSnoc(t.queue, Entry(tx.at % TWO32, tx.duration));
    MatchesPush(t.queue, log, tx);
    hide Matches;
  }

  lemma {:induction false} PruneLowers(t: Tracker, log: seq<Tx>, now: nat, window: nat)
    requires t.used == Total(t.queue) < TWO32
    ensures Prune(t, now % TWO32, window).used <= t.used
    decreases |t.queue|
  {
    if t.queue != [] && Minus(now % TWO32, t.queue[0].atMs) > window {
      PruneLowers(Tracker(t.queue[1..], Minus(t.used, t.queue[0].durationMs)), log, now, window);
    }
  }

  lemma {:induction false} SinceIsTotal(queue: seq<Entry>, log: seq<Tx>, from: int)
    requires Matches(queue, log)
    requires forall i :: 0 <= i < |log| - |queue| ==> log[i].at < from
    requires forall i :: |log| - |queue| <= i < |log| ==> log[i].at >= from
    ensures Since(log, from) == Total(queue)
    decreases |log|
  {
    if log != [] {
      var n := |log| - 1;
      if queue == [] {
        SinceIsTotal([], log[..n], from);
      } else {
        var init := queue[..|queue| - 1];
        assert queue == init + [queue[|queue| - 1]];
        TotalSnoc(init, queue[|queue| - 1]);
        SinceIsTotal(init, log[..n], from);
      }
    }
  }

  /** When a transmission over budget is let through: exactly when the 32-bit sum wraps round to within the limit. */
  lemma OverBudgetIff(t: Tracker, duration: nat, limit: nat)
    requires t.used <= limit < TWO32 && duration < TWO32
    ensures !Exceeds(t, duration, limit) && t.used + duration > limit <==> TWO32 <= t.used + duration <= TWO32 + limit
  {
  }

  /** The bound needs its condition: two requests in one window, the second absurdly long. */
  lemma OverflowBreaksTheLimit()
    ensures var txs := [Tx(0, 36_000), Tx(1, TWO32 - 36_000)];
            Monotone(txs) && Within(Sent(txs, 36_000, 3_600_000), 0, 3_600_000) == TWO32
  {
    var a, b := Tx(0, 36_000), Tx(1, TWO32 - 36_000);
    var txs := [a, b];
    assert txs[..1] == [a] && [a][..0] == [];
    assert Run([a], 36_000, 3_600_000) == Tracker([Entry(0, 36_000)], 36_000);
    assert Sent([a], 36_000, 3_600_000) == [a];
    assert Sent(txs, 36_000, 3_600_000) == txs;
    assert Within([a], 0, 3_600_000) == 36_000;
  }
}
