/**
 * Reliable delivery end to end: a stop-and-wait sender, a link that may lose, repeat, delay,
 * reorder and (detectably) damage whatever it carries, and a receiver that acknowledges every
 * intact frame and then asks its duplicate window whether to process it. Transfers carry
 * unbounded ids; the wire carries `id mod 256`.
 */
module Protocol {
  import opened Bytes
  import opened Dedup
  import Arq

  /**
   * `cur` is the transfer in progress (-1 before the first). A copy that was ever sent may
   * arrive any number of times and in any order, or never, so the link needs no contents: data
   * copies exist for the ids up to `cur`, and acknowledgements for the ids in `arrivals`.
   */
  datatype State = State(cur: int, sender: Arq.Sender, receiver: Option<Window>, arrivals: seq<int>, processed: seq<int>)

  datatype Action =
    | Begin(frame: seq<byte>, now: int, draw: Option<nat>)
    | Arrive(id: int)
    | AckArrive(id: int, now: int)
    | Poll(now: int, guard: nat -> bool, draw: Option<nat>)

  function Init(): State {
    State(-1, Arq.Init(), None, [], [])
  }

  /** Only what was sent can arrive, and a transfer begins once the one before is over. */
  predicate Enabled(s: State, a: Action) {
    match a
    case Arrive(id) => 0 <= id <= s.cur
    case AckArrive(id, _) => id in s.arrivals
    case Begin(_, _, _) => !s.sender.phase.WaitAck?
    case Poll(_, _, _) => true
  }

  function Hear(receiver: Option<Window>, id: int): (Window, Verdict) {
    match receiver
    case None => (FirstHeard(id % SEQS), Accepted)
    case Some(w) => Judge(w, id % SEQS)
  }

  function Next(s: State, a: Action): State {
    match a
    case Begin(frame, now, draw) =>
      var idle := Arq.Step(s.sender, Arq.Reset).0;
      s.(cur := s.cur + 1, sender := Arq.Step(idle, Arq.Send((s.cur + 1) % SEQS, frame, now, draw)).0)
    case Arrive(id) =>
      var (w, v) := Hear(s.receiver, id);
      s.(arrivals := s.arrivals + [id], receiver := Some(w), processed := s.processed + if v == Accepted then [id] else [])
    case AckArrive(id, now) =>
      s.(sender := Arq.Step(s.sender, Arq.Ack(id % SEQS, now)).0)
    case Poll(now, guard, draw) =>
      s.(sender := Arq.Step(s.sender, Arq.Tick(now, guard, draw)).0)
  }

  function Run(actions: seq<Action>): State {
    if actions == [] then Init() else Next(Run(actions[..|actions| - 1]), actions[|actions| - 1])
  }

  ghost predicate Possible(actions: seq<Action>) {
    forall k :: 0 <= k < |actions| ==> Enabled(Run(actions[..k]), actions[k])
  }

  /** No data copy arrives more than `life` transfers after its own. */
  ghost predicate Lifetime(actions: seq<Action>, life: int) {
    forall k :: 0 <= k < |actions| && actions[k].Arrive? ==> Run(actions[..k]).cur - actions[k].id <= life
  }

  predicate NoRepeats(ids: seq<int>) {
    forall i, j :: 0 <= i < j < |ids| ==> ids[i] != ids[j]
  }

  // ---- no id is processed twice -------------------------------------------------------

  /** The longest life of a copy under which nothing is ever processed twice, whatever is lost. */
  const LIFE := 97

  /** How far behind the receiver's newest number, modulo 256, an id reads. */
  function Age(w: Window, id: int): (a: nat)
    ensures a < SEQS
  {
    (w.last - id) % SEQS
  }

  /** A processed id recent enough to arrive again reads as old, and its bit is set if the window reaches it. */
  predicate Remembered(w: Window, cur: int, id: int) {
    && Age(w, id) <= Max(WINDOW - 1, cur - id)
    && (Age(w, id) < WINDOW ==> w.bitmap[Age(w, id)])
  }

  predicate Inv(s: State) {
    && (forall id :: id in s.processed ==> 0 <= id <= s.cur)
    && (s.receiver == None ==> s.processed == [])
    && (s.receiver.Some? ==>
          forall id :: id in s.processed && s.cur - id <= LIFE ==> Remembered(s.receiver.value, s.cur, id))
    && NoRepeats(s.processed)
  }

  /** What is remembered is not accepted again. */
  lemma RememberedIsRefused(w: Window, cur: int, id: int)
    requires cur - LIFE <= id <= cur && Remembered(w, cur, id)
    ensures Judge(w, id % SEQS).1 != Accepted
  {
    DeltaIs(w, id);
  }

  lemma DeltaIs(w: Window, id: int)
    ensures var a: int := Age(w, id); SeqDelta(id % SEQS, w.last) == if a <= 128 then -a else SEQS - a
  {
  }

  /** Accepting an id forgets none of the others. */
  lemma StillRemembered(w: Window, cur: int, id: int, other: int)
    requires cur - LIFE <= id <= cur && cur - LIFE <= other <= cur
    requires Remembered(w, cur, other) && Judge(w, id % SEQS).1 == Accepted
    ensures Remembered(Judge(w, id % SEQS).0, cur, other)
  {
    DeltaIs(w, id);
    var delta := SeqDelta(id % SEQS, w.last);
    if delta > 0 {
      AgesDiffer(w, id, other);
      NewestAge(Judge(w, id % SEQS).0, id, other);
    }
  }

  /** Two ids within a life of each other read as far apart as they are, in one direction or the other. */
  lemma AgesDiffer(w: Window, id: int, other: int)
    requires -LIFE <= id - other <= LIFE
    ensures Age(w, other) - Age(w, id) in {id - other, id - other - SEQS, id - other + SEQS}
  {
  }

  /** Once `id` is the newest, `other` reads as `id - other` behind. */
  lemma NewestAge(w: Window, id: int, other: int)
    requires -LIFE <= id - other <= LIFE && w.last == id % SEQS
    ensures Age(w, other) == if other <= id then id - other else SEQS - (other - id)
  {
  }

  lemma AcceptedIsRemembered(w: Window, cur: int, id: int)
    requires cur - LIFE <= id <= cur && Judge(w, id % SEQS).1 == Accepted
    ensures Remembered(Judge(w, id % SEQS).0, cur, id)
  {
    DeltaIs(w, id);
  }

  lemma InvNext(s: State, a: Action)
    requires Inv(s) && Enabled(s, a) && (a.Arrive? ==> s.cur - a.id <= LIFE)
    ensures Inv(Next(s, a))
  {
    hide Judge, Remembered;
    if a.Arrive? && s.receiver.Some? {
      ArriveKeeps(s, a.id);
    } else if a.Arrive? {
      FirstIsRemembered(s.cur, a.id);
    } else if a.Begin? && s.receiver.Some? {
      forall id | id in s.processed && s.cur + 1 - id <= LIFE
        ensures Remembered(s.receiver.value, s.cur + 1, id)
      {
        LaterStillRemembered(s.receiver.value, s.cur, id);
      }
    }
  }

  lemma FirstIsRemembered(cur: int, id: int)
    requires id <= cur
    ensures Remembered(FirstHeard(id % SEQS), cur, id)
  {
  }

  lemma LaterStillRemembered(w: Window, cur: int, id: int)
    requires Remembered(w, cur, id)
    ensures Remembered(w, cur + 1, id)
  {
  }

  lemma ArriveKeeps(s: State, id: int)
    requires Inv(s) && s.receiver.Some? && s.cur - LIFE <= id <= s.cur && 0 <= id
    ensures Inv(Next(s, Arrive(id)))
  {
    hide Judge, Remembered;
    var w := s.receiver.value;
    var (w', v) := Judge(w, id % SEQS);
    var s' := Next(s, Arrive(id));
    if v == Accepted {
      if id in s.processed {
        RememberedIsRefused(w, s.cur, id);
      }
      AcceptedIsRemembered(w, s.cur, id);
      forall other | other in s'.processed && s'.cur - other <= LIFE
        ensures Remembered(w', s.cur, other)
      {
        if other != id {
          StillRemembered(w, s.cur, id, other);
        }
      }
    } else {
      RefusedChangesNothing(w, id);
    }
  }

  lemma RefusedChangesNothing(w: Window, id: int)
    requires Judge(w, id % SEQS).1 != Accepted
    ensures Judge(w, id % SEQS).0 == w
  {
  }

  /** Whatever is lost, given up, repeated or reordered, nothing is processed twice. */
  lemma {:induction false} NeverTwice(actions: seq<Action>)
    requires Possible(actions) && Lifetime(actions, LIFE)
    ensures Inv(Run(actions))
  {
    hide Inv, Next, Enabled;
    if actions == [] {
      NothingYet();
    } else {
      var n := |actions| - 1;
      Prefix(actions, LIFE);
      NeverTwice(actions[..n]);
      InvNext(Run(actions[..n]), actions[n]);
    }
  }

  lemma NothingYet()
    ensures Inv(Init())
  {
  }

  lemma Prefix(actions: seq<Action>, life: int)
    requires actions != [] && Possible(actions) && Lifetime(actions, life)
    ensures var n := |actions| - 1;
            && Possible(actions[..n]) && Lifetime(actions[..n], life)
            && Enabled(Run(actions[..n]), actions[n])
            && (actions[n].Arrive? ==> Run(actions[..n]).cur - actions[n].id <= life)
  {
    var n := |actions| - 1;
    forall k | 0 <= k < n
      ensures actions[..n][..k] == actions[..k]
    {
    }
  }

  // ---- and the bound is the exact one ------------------------------------------------

  /**
   * No id is processed twice in any run whose copies live at most `life` transfers, exactly
   * when `life` is at most 97.
   */
  lemma SafeIff(life: int)
    ensures (forall actions :: Possible(actions) && Lifetime(actions, life) ==> NoRepeats(Run(actions).processed)) <==> life <= LIFE
  {
    if life <= LIFE {
      forall actions | Possible(actions) && Lifetime(actions, life)
        ensures NoRepeats(Run(actions).processed)
      {
        NeverTwice(actions);
      }
    } else {
      var actions := TwiceAtNinetyEight();
      assert Lifetime(actions, life);
    }
  }

  lemma Append(before: seq<Action>, a: Action, life: int) returns (after: seq<Action>)
    requires Possible(before) && Lifetime(before, life)
    requires Enabled(Run(before), a) && (a.Arrive? ==> Run(before).cur - a.id <= life)
    ensures after == before + [a] && Possible(after) && Lifetime(after, life) && Run(after) == Next(Run(before), a)
    ensures forall b :: Close(before, b) && CloseStep(Run(before), a, b) ==> Close(after, b)
  {
    hide Next, Enabled;
    forall b | Close(before, b) && CloseStep(Run(before), a, b)
      ensures Close(before + [a], b)
    {
      AppendClose(before, a, b);
    }
    hide Close, CloseStep;
    after := before + [a];
    assert after[..|before|] == before;
    forall k | 0 <= k < |before|
      ensures after[..k] == before[..k]
    {
    }
  }

  /** A transfer of which nothing arrives: five retransmissions, then the sender gives up. */
  lemma SilentTransfer(before: seq<Action>, life: int) returns (after: seq<Action>)
    requires Possible(before) && Lifetime(before, life) && !Run(before).sender.phase.WaitAck?
    ensures Possible(after) && Lifetime(after, life) && !Run(after).sender.phase.WaitAck?
    ensures var s := Run(before); var t := Run(after);
            t.cur == s.cur + 1 && t.receiver == s.receiver && t.processed == s.processed && t.arrivals == s.arrivals
    ensures forall b :: Close(before, b) ==> Close(after, b)
  {
    hide Possible, Lifetime, Run, Close;
    after := Append(before, Begin([0x4B], 0, None), life);
    var polls := 0;
    while polls < Arq.MAX_RETRIES
      invariant polls <= Arq.MAX_RETRIES
      invariant Possible(after) && Lifetime(after, life)
      invariant Run(after).sender.phase.WaitAck? && Run(after).sender.retry == polls
      invariant var s := Run(before); var t := Run(after);
                t.cur == s.cur + 1 && t.receiver == s.receiver && t.processed == s.processed && t.arrivals == s.arrivals
      invariant forall b :: Close(before, b) ==> Close(after, b)
    {
      after := Append(after, Poll(Run(after).sender.nextRetry, _ => true, None), life);
      polls := polls + 1;
    }
    after := Append(after, Poll(Run(after).sender.nextRetry, _ => true, None), life);
  }

  lemma Silence(before: seq<Action>, n: nat, life: int) returns (after: seq<Action>)
    requires Possible(before) && Lifetime(before, life) && !Run(before).sender.phase.WaitAck?
    ensures Possible(after) && Lifetime(after, life) && !Run(after).sender.phase.WaitAck?
    ensures var s := Run(before); var t := Run(after);
            t.cur == s.cur + n && t.receiver == s.receiver && t.processed == s.processed && t.arrivals == s.arrivals
    ensures forall b :: Close(before, b) ==> Close(after, b)
  {
    hide Possible, Lifetime, Run, Close;
    after := before;
    if n > 0 {
      after := Silence(before, n - 1, life);
      after := SilentTransfer(after, life);
    }
  }

  /**
   * After 224 transfers of which nothing was heard, transfer 225 reads as an unseen id of the
   * old window; a copy 98 transfers late then moves the window on, and 225 passes again.
   */
  lemma TwiceAtNinetyEight() returns (actions: seq<Action>)
    ensures Possible(actions) && Lifetime(actions, LIFE + 1) && !NoRepeats(Run(actions).processed)
  {
    hide Possible, Lifetime, Run, Close;
    var life := LIFE + 1;
    actions := FirstTransferHeard(life);
    actions := Silence(actions, 225, life);
    actions := Append(actions, Arrive(225), life);
    var w := Window(0, Zeros(WINDOW)[0 := true][31 := true]);
    assert Run(actions).receiver == Some(w) && Run(actions).processed == [0, 225];
    actions := Append(actions, Arrive(127), life);
    assert Run(actions).receiver.value.last == 127 && Run(actions).processed == [0, 225, 127];
    actions := Append(actions, Arrive(225), life);
    assert Run(actions).processed == [0, 225, 127, 225];
    assert Run(actions).processed[1] == Run(actions).processed[3];
  }

  lemma FirstTransferHeard(life: int) returns (actions: seq<Action>)
    requires life >= 0
    ensures Possible(actions) && Lifetime(actions, life) && !Run(actions).sender.phase.WaitAck?
    ensures Run(actions).cur == 0 && Run(actions).receiver == Some(FirstHeard(0))
    ensures Run(actions).processed == Run(actions).arrivals == [0]
    ensures forall b: Bounds :: b.data >= 0 ==> Close(actions, b)
  {
    actions := SomeSilent(1, life);
    hide Possible, Lifetime, Run, Close;
    actions := Append(actions, Arrive(0), life);
  }

  /** The first `n` transfers, of which nothing arrives. */
  lemma SomeSilent(n: nat, life: int) returns (actions: seq<Action>)
    ensures Possible(actions) && Lifetime(actions, life) && !Run(actions).sender.phase.WaitAck?
    ensures var s := Run(actions); s.cur == n - 1 && s.receiver == None && s.processed == s.arrivals == []
    ensures forall b :: Close(actions, b)
  {
    assert Possible([]) && Lifetime([], life) && Run([]) == Init();
    assert forall b :: Close([], b);
    hide Possible, Lifetime, Run, Close;
    actions := Silence([], n, life);
  }

  // ---- what a run adds up to ---------------------------------------------------------

  /** Transfers accepted, completed and given up, retransmissions, and what arrived at either end. */
  datatype Totals = Totals(begun: nat, completed: nat, givenUp: nat, retransmitted: nat,
                           arrived: nat, duplicates: nat, tooOld: nat, acks: nat)

  function Total(actions: seq<Action>): Totals {
    if actions == [] then Totals(0, 0, 0, 0, 0, 0, 0, 0) else
      var n := |actions| - 1;
      Added(Total(actions[..n]), Run(actions[..n]), actions[n])
  }

  function Added(t: Totals, s: State, a: Action): Totals {
    match a
    case Begin(frame, now, draw) =>
      var out := Arq.Step(Arq.Step(s.sender, Arq.Reset).0, Arq.Send((s.cur + 1) % SEQS, frame, now, draw)).1;
      t.(begun := t.begun + if out.Accepted? then 1 else 0)
    case Arrive(id) =>
      var v := Hear(s.receiver, id).1;
      t.(arrived := t.arrived + 1, duplicates := t.duplicates + (if v == Duplicate then 1 else 0),
         tooOld := t.tooOld + (if v == TooOld then 1 else 0))
    case AckArrive(id, now) =>
      var out := Arq.Step(s.sender, Arq.Ack(id % SEQS, now)).1;
      t.(acks := t.acks + 1, completed := t.completed + if out.Completed? then 1 else 0)
    case Poll(now, guard, draw) =>
      var out := Arq.Step(s.sender, Arq.Tick(now, guard, draw)).1;
      t.(retransmitted := t.retransmitted + (if out.Retransmit? then 1 else 0), givenUp := t.givenUp + (if out.GaveUp? then 1 else 0))
  }

  lemma TotalSnoc(actions: seq<Action>, a: Action)
    ensures Total(actions + [a]) == Added(Total(actions), Run(actions), a)
  {
    hide Added, Run;
    assert (actions + [a])[..|actions|] == actions;
  }

  lemma TotalArrive(actions: seq<Action>, id: int)
    ensures var t, t' := Total(actions), Total(actions + [Arrive(id)]); var v := Hear(Run(actions).receiver, id).1;
            t' == t.(arrived := t.arrived + 1, duplicates := t.duplicates + (if v == Duplicate then 1 else 0),
                     tooOld := t.tooOld + (if v == TooOld then 1 else 0))
  {
    hide Run, Hear;
    TotalSnoc(actions, Arrive(id));
  }

  lemma TotalAck(actions: seq<Action>, id: int, now: int)
    ensures var t, t' := Total(actions), Total(actions + [AckArrive(id, now)]);
            var out := Arq.Step(Run(actions).sender, Arq.Ack(id % SEQS, now)).1;
            t' == t.(acks := t.acks + 1, completed := t.completed + if out.Completed? then 1 else 0)
  {
    hide Run;
    TotalSnoc(actions, AckArrive(id, now));
  }

  /** How many jitter draws a run has used: one for each transfer begun and each retransmission. */
  function DrawsUsed(actions: seq<Action>): nat {
    Total(actions).begun + Total(actions).retransmitted
  }

  /** Every transfer is completed, given up or in progress, after at most five retransmissions; and every arrival is processed or refused. */
  predicate AddsUp(t: Totals, s: State) {
    && t.begun == t.completed + t.givenUp + (if s.sender.phase.WaitAck? then 1 else 0)
    && t.retransmitted + (if s.sender.phase.WaitAck? then 5 - s.sender.retry else 0) <= 5 * t.begun && s.sender.retry <= 5
    && t.arrived == |s.arrivals| == |s.processed| + t.duplicates + t.tooOld
    && t.begun <= s.cur + 1
  }

  lemma {:induction false} TotalAddsUp(actions: seq<Action>)
    requires Possible(actions)
    ensures AddsUp(Total(actions), Run(actions))
  {
    hide Next, Added, AddsUp, Enabled, Possible;
    if actions == [] {
      NothingAdded();
    } else {
      PossiblePrefix(actions);
      TotalAddsUp(actions[..|actions| - 1]);
      AddsUpStep(Total(actions[..|actions| - 1]), Run(actions[..|actions| - 1]), actions[|actions| - 1]);
    }
  }

  lemma NothingAdded()
    ensures AddsUp(Totals(0, 0, 0, 0, 0, 0, 0, 0), Init())
  {
  }

  lemma AddsUpStep(t: Totals, s: State, a: Action)
    requires AddsUp(t, s) && Enabled(s, a)
    ensures AddsUp(Added(t, s, a), Next(s, a))
  {
    hide Judge, FirstHeard;
  }

  // ---- in range, the protocol is the ideal one ----------------------------------------

  /** What the receiver has done is its duplicate window run over all that arrived. */
  ghost predicate WindowRun(s: State) {
    && s.receiver == Solo(OnWire(s.arrivals)) && s.processed == LetThrough(s.arrivals)
    && (forall id :: id in s.arrivals ==> 0 <= id <= s.cur)
    && s.cur >= -1
    && (s.sender.phase.WaitAck? ==> s.cur >= 0 && s.sender.seqNo == s.cur % SEQS)
  }

  lemma {:induction false} ProcessedIsLetThrough(actions: seq<Action>)
    requires Possible(actions)
    ensures WindowRun(Run(actions))
  {
    hide Next, Enabled, Possible;
    if actions == [] {
      assert OnWire([]) == [];
    } else {
      PossiblePrefix(actions);
      hide WindowRun;
      ProcessedIsLetThrough(actions[..|actions| - 1]);
      WindowRunStep(Run(actions[..|actions| - 1]), actions[|actions| - 1]);
    }
  }

  lemma WindowRunStep(s: State, a: Action)
    requires WindowRun(s) && Enabled(s, a)
    ensures WindowRun(Next(s, a))
  {
    hide Judge, Solo, LetThrough;
    if a.Arrive? {
      LetThroughSnoc(s.arrivals, a.id);
    }
  }

  lemma LetThroughSnoc(ids: seq<int>, id: int)
    ensures Hear(Solo(OnWire(ids)), id) == SoloJudge(OnWire(ids), id % SEQS)
    ensures Solo(OnWire(ids + [id])) == Some(SoloJudge(OnWire(ids), id % SEQS).0)
    ensures LetThrough(ids + [id]) == LetThrough(ids) + if SoloJudge(OnWire(ids), id % SEQS).1 == Accepted then [id] else []
  {
    hide Judge;
    assert (ids + [id])[..|ids|] == ids;
    assert OnWire(ids + [id]) == OnWire(ids) + [id % SEQS];
    SoloSnoc(OnWire(ids), id % SEQS);
  }

  lemma PossiblePrefix(actions: seq<Action>)
    requires actions != [] && Possible(actions)
    ensures Possible(actions[..|actions| - 1]) && Enabled(Run(actions[..|actions| - 1]), actions[|actions| - 1])
  {
    var n := |actions| - 1;
    forall k | 0 <= k < n
      ensures actions[..n][..k] == actions[..k]
    {
    }
  }

  /**
   * While what arrives stays within 128 behind and 127 ahead of the newest id processed, over
   * any number of wraps, nothing is processed twice and exactly what the unbounded rule accepts
   * is processed.
   */
  lemma InRangeIsIdeal(actions: seq<Action>)
    requires Possible(actions) && Run(actions).arrivals != [] && InRange(Run(actions).arrivals)
    ensures var s := Run(actions);
            && NoRepeats(s.processed)
            && forall id :: id in s.processed <==> id in IdealRun(s.arrivals).seen
  {
    ProcessedIsLetThrough(actions);
    StreamRefines(Run(actions).arrivals);
  }

  /** Each arrival in range is processed, or was already a whole window behind. */
  lemma {:induction false} ArrivedMeans(ids: seq<int>)
    requires ids != [] && InRange(ids)
    ensures forall id :: id in ids ==> id in IdealRun(ids).seen || id + WINDOW <= IdealRun(ids).newest
    ensures IdealRun(ids).newest in IdealRun(ids).seen
    ensures forall id :: id in IdealRun(ids).seen ==> id in ids && id <= IdealRun(ids).newest
  {
    var n := |ids| - 1;
    assert ids == ids[..n] + [ids[n]];
    if n > 0 {
      ArrivedMeans(ids[..n]);
    }
  }

  // ---- an acknowledged transfer was processed ------------------------------------------

  /**
   * How long data copies and acknowledgements live, in transfers, and how far behind the sender
   * the receiver's newest id may be when a copy arrives.
   */
  datatype Bounds = Bounds(data: int, ack: int, lag: int)

  predicate CloseStep(s: State, a: Action, b: Bounds) {
    && (a.AckArrive? ==> s.cur - a.id <= b.ack)
    && (a.Arrive? ==> s.cur - a.id <= b.data && (s.arrivals != [] ==> IdealRun(s.arrivals).newest >= s.cur - b.lag))
  }

  ghost predicate Close(actions: seq<Action>, b: Bounds) {
    forall k :: 0 <= k < |actions| ==> CloseStep(Run(actions[..k]), actions[k], b)
  }

  /** After the run an acknowledgement of `id` may arrive, and completes the transfer in progress. */
  ghost predicate Completes(actions: seq<Action>, id: int, now: int, b: Bounds) {
    && Possible(actions + [AckArrive(id, now)]) && Close(actions + [AckArrive(id, now)], b)
    && Arq.Step(Run(actions).sender, Arq.Ack(id % SEQS, now)).1 == Arq.Completed
  }

  /** It is the transfer in progress that was acknowledged, and the receiver has processed it. */
  predicate Genuine(s: State, id: int) {
    id == s.cur && id in s.processed
  }

  /** Within these, the window's reach. */
  const REACH := Bounds(128, 255, 127)

  predicate Trusted(b: Bounds) {
    || b.data < 0 || b.ack < 0
    || (b.ack <= REACH.ack && (b.lag <= 0 || (b.data <= REACH.data && b.lag <= REACH.lag)))
  }

  /**
   * Every completed transfer was processed exactly when acknowledgements live at most 255
   * transfers, data copies 128 and the receiver is at most 127 behind. (Short of that: when
   * nothing can arrive at all, or the receiver may not be behind, so that no transfer but the
   * first heard ever arrives.)
   */
  lemma TrustedIff(b: Bounds)
    ensures (forall actions, id, now :: Completes(actions, id, now, b) ==> Genuine(Run(actions), id)) <==> Trusted(b)
  {
    hide Completes, Run;
    if Trusted(b) {
      forall actions, id, now | Completes(actions, id, now, b)
        ensures Genuine(Run(actions), id)
      {
        CompletedIsGenuine(actions, id, now, b);
      }
    } else {
      var actions, id, now := Misled(b);
    }
  }

  lemma CompletedIsGenuine(actions: seq<Action>, id: int, now: int, b: Bounds)
    requires Trusted(b) && Completes(actions, id, now, b)
    ensures Genuine(Run(actions), id)
  {
    hide Possible, Close, Run;
    BeforeAck(actions, id, now, b);
    ProcessedIsLetThrough(actions);
    if b.data < 0 {
      NothingArrives(actions, b);
    }
    if b.data <= REACH.data && b.lag <= REACH.lag {
      CompletedWasProcessed(actions, id, now, b);
    } else {
      SameNumber(id, Run(actions).cur);
      NewestOnly(actions, b);
    }
  }

  lemma BeforeAck(actions: seq<Action>, id: int, now: int, b: Bounds)
    requires Completes(actions, id, now, b)
    ensures Possible(actions) && Close(actions, b)
    ensures Enabled(Run(actions), AckArrive(id, now)) && CloseStep(Run(actions), AckArrive(id, now), b)
  {
    var all := actions + [AckArrive(id, now)];
    assert all[..|actions|] == actions;
    PossiblePrefix(all);
    ClosePrefix(all, b);
  }

  lemma {:induction false} NothingArrives(actions: seq<Action>, b: Bounds)
    requires Possible(actions) && Close(actions, b) && b.data < 0
    ensures Run(actions).arrivals == []
  {
    hide Possible, Close, Judge;
    if actions != [] {
      PossiblePrefix(actions);
      ClosePrefix(actions, b);
      NothingArrives(actions[..|actions| - 1], b);
    }
  }

  /** When the receiver may not be behind, the transfer in progress is processed if it has arrived. */
  lemma {:induction false} NewestOnly(actions: seq<Action>, b: Bounds)
    requires Possible(actions) && Close(actions, b) && b.lag <= 0
    ensures var s := Run(actions); s.cur in s.arrivals ==> s.cur in s.processed
  {
    hide Possible, Close, Judge;
    if actions != [] {
      var n := |actions| - 1;
      PossiblePrefix(actions);
      ClosePrefix(actions, b);
      NewestOnly(actions[..n], b);
      var s := Run(actions[..n]);
      ProcessedIsLetThrough(actions[..n]);
      if actions[n].Arrive? && s.arrivals != [] {
        NewestArrived(s.arrivals);
      } else if actions[n].Arrive? {
        assert s.receiver == None;
      }
    }
  }

  lemma {:induction false} NewestArrived(ids: seq<int>)
    requires ids != []
    ensures IdealRun(ids).newest in ids
  {
    if |ids| > 1 {
      NewestArrived(ids[..|ids| - 1]);
    }
  }

  /**
   * When an acknowledgement completes the transfer in progress the receiver has processed that
   * very id: no stale acknowledgement, retransmission or abandoned transfer changes that.
   */
  lemma CompletedWasProcessed(actions: seq<Action>, id: int, now: int, b: Bounds)
    requires Possible(actions) && Close(actions, b) && b.data <= REACH.data && b.ack <= REACH.ack && b.lag <= REACH.lag
    requires Enabled(Run(actions), AckArrive(id, now)) && CloseStep(Run(actions), AckArrive(id, now), b)
    requires Arq.Step(Run(actions).sender, Arq.Ack(id % SEQS, now)).1 == Arq.Completed
    ensures Genuine(Run(actions), id)
  {
    hide Close, Possible, InRange, IdealRun;
    CloseIsInRange(actions, b);
    var s := Run(actions);
    ProcessedIsLetThrough(actions);
    SameNumber(id, s.cur);
    ArrivedMeans(s.arrivals);
    StreamRefines(s.arrivals);
  }

  lemma SameNumber(id: int, cur: int)
    requires id <= cur <= id + 255 && id % SEQS == cur % SEQS
    ensures id == cur
  {
  }

  lemma ClosePrefix(actions: seq<Action>, b: Bounds)
    requires actions != [] && Close(actions, b)
    ensures Close(actions[..|actions| - 1], b) && CloseStep(Run(actions[..|actions| - 1]), actions[|actions| - 1], b)
  {
    var n := |actions| - 1;
    forall k | 0 <= k < n
      ensures actions[..n][..k] == actions[..k]
    {
    }
  }

  lemma {:induction false} CloseIsInRange(actions: seq<Action>, b: Bounds)
    requires Possible(actions) && Close(actions, b) && b.data <= REACH.data && b.lag <= REACH.lag
    ensures InRange(Run(actions).arrivals)
  {
    hide Judge, Possible, Close;
    if actions != [] {
      var n := |actions| - 1;
      PossiblePrefix(actions);
      ClosePrefix(actions, b);
      CloseIsInRange(actions[..n], b);
      var ids := Run(actions[..n]).arrivals;
      if actions[n].Arrive? && ids != [] {
        ProcessedIsLetThrough(actions[..n]);
        ArrivedMeans(ids);
        assert (ids + [actions[n].id])[..|ids|] == ids;
      }
    }
  }

  lemma AppendClose(before: seq<Action>, a: Action, b: Bounds)
    requires Close(before, b) && CloseStep(Run(before), a, b)
    ensures Close(before + [a], b)
  {
    hide CloseStep;
    var after := before + [a];
    assert after[..|before|] == before;
    forall k | 0 <= k < |before|
      ensures after[..k] == before[..k]
    {
    }
  }

  /** With the ids just behind the sender processed, but for at most 126, the next arrival is close. */
  lemma KeptIsClose(actions: seq<Action>, failed: set<int>, a: Action)
    requires Possible(actions) && Close(actions, REACH) && Enabled(Run(actions), a)
    requires |failed| <= 126 && forall id :: 0 <= id < Run(actions).cur ==> id in Run(actions).processed || id in failed
    requires (a.Arrive? ==> Run(actions).cur - a.id <= 128) && (a.AckArrive? ==> Run(actions).cur - a.id <= 255)
    ensures CloseStep(Run(actions), a, REACH)
  {
    var s := Run(actions);
    if a.Arrive? && s.arrivals != [] {
      hide Close, Possible, InRange, IdealRun;
      CloseIsInRange(actions, REACH);
      ProcessedIsLetThrough(actions);
      ArrivedMeans(s.arrivals);
      StreamRefines(s.arrivals);
      if s.cur >= 127 {
        var id := NotAllIn(s.cur - 127, 127, failed);
        assert id in s.processed;
      }
    }
  }

  /** More ids in a row than a set holds: one of them is not in it. */
  lemma {:induction false} NotAllIn(from: int, n: nat, ids: set<int>) returns (id: int)
    requires |ids| < n
    ensures from <= id < from + n && id !in ids
  {
    if from + n - 1 !in ids {
      id := from + n - 1;
    } else {
      id := NotAllIn(from, n - 1, ids - {from + n - 1});
    }
  }

  /**
   * When a frame newer than everything processed is refused although it is acknowledged: when
   * the gap, modulo 256, is none, or reads as too old, or as a seen id of the window.
   */
  lemma FreshRefusedIff(w: Window, i: Ideal, id: int)
    requires Represents(w, i) && id > i.newest
    ensures var gap := (id - i.newest) % SEQS;
            Judge(w, id % SEQS).1 != Accepted <==>
            gap == 0 || 128 <= gap <= SEQS - WINDOW || (gap > SEQS - WINDOW && (i.newest - (SEQS - gap)) in i.seen)
  {
    DeltaModulo(id, i.newest);
    var gap := (id - i.newest) % SEQS;
    assert (id - i.newest + 128) % SEQS - 128 == if gap >= 128 then gap - SEQS else gap by {
      GapAhead(id - i.newest);
    }
  }

  lemma GapAhead(n: int)
    ensures (n + 128) % SEQS - 128 == if n % SEQS >= 128 then n % SEQS - SEQS else n % SEQS
  {
  }

  // ---- and the bounds are the exact ones -----------------------------------------------

  /** Beyond the window's reach some run completes a transfer that was not processed. */
  lemma Misled(b: Bounds) returns (actions: seq<Action>, id: int, now: int)
    requires !Trusted(b)
    ensures Completes(actions, id, now, b) && !Genuine(Run(actions), id)
  {
    hide Completes, Run;
    now := 0;
    if b.ack > REACH.ack {
      id := 0;
      actions := StaleAck(b);
    } else if b.lag > REACH.lag {
      id := 128;
      actions := FarBehind(b);
    } else {
      id := 130;
      actions := StaleCopy(b);
    }
  }

  lemma AckCompletes(actions: seq<Action>, id: int, b: Bounds)
    requires Possible(actions) && Lifetime(actions, b.data) && Close(actions, b)
    requires var s := Run(actions); id in s.arrivals && s.cur - id <= b.ack && s.sender.phase.WaitAck? && s.sender.seqNo == id % SEQS
    ensures Completes(actions, id, 0, b)
  {
    hide Possible, Lifetime, Run, Close;
    var all := Append(actions, AckArrive(id, 0), b.data);
  }

  /** An acknowledgement 256 transfers old carries the number of the transfer in progress. */
  lemma StaleAck(b: Bounds) returns (actions: seq<Action>)
    requires b.data >= 0 && b.ack >= 256
    ensures Completes(actions, 0, 0, b) && !Genuine(Run(actions), 0)
  {
    hide Possible, Lifetime, Run, Close, Completes;
    actions := FirstTransferHeard(b.data);
    actions := Silence(actions, 255, b.data);
    actions := Append(actions, Begin([0x4B], 0, None), b.data);
    AckCompletes(actions, 0, b);
  }

  /** With the receiver 128 behind, a new id reads as one a whole window old. */
  lemma FarBehind(b: Bounds) returns (actions: seq<Action>)
    requires b.data >= 0 && b.ack >= 0 && b.lag >= 128
    ensures Completes(actions, 128, 0, b) && !Genuine(Run(actions), 128)
  {
    hide Possible, Lifetime, Run, Close, Completes;
    actions := FirstTransferHeard(b.data);
    actions := Silence(actions, 127, b.data);
    actions := Append(actions, Begin([0x4B], 0, None), b.data);
    actions := Append(actions, Arrive(128), b.data);
    AckCompletes(actions, 128, b);
  }

  /** A copy 129 transfers old reads as new and turns the window back, and the next id reads as too old. */
  lemma StaleCopy(b: Bounds) returns (actions: seq<Action>)
    requires b.data >= 129 && b.ack >= 0 && b.lag >= 1
    ensures Completes(actions, 130, 0, b) && !Genuine(Run(actions), 130)
  {
    hide Possible, Lifetime, Run, Close, Completes, Judge, IdealRun;
    actions := TurnedBack(b);
    actions := Append(actions, Begin([0x4B], 0, None), b.data);
    IdealPair(129, 0);
    TooOldFrom(Run(actions).receiver.value, 130);
    actions := Append(actions, Arrive(130), b.data);
    AckCompletes(actions, 130, b);
  }

  lemma TurnedBack(b: Bounds) returns (actions: seq<Action>)
    requires b.data >= 129 && b.lag >= 1
    ensures Possible(actions) && Lifetime(actions, b.data) && Close(actions, b) && !Run(actions).sender.phase.WaitAck?
    ensures var s := Run(actions);
            s.cur == 129 && s.receiver.Some? && s.receiver.value.last == 0 && s.processed == s.arrivals == [129, 0]
  {
    hide Possible, Lifetime, Run, Close, Judge, IdealRun;
    actions := SomeSilent(130, b.data);
    actions := Append(actions, Arrive(129), b.data);
    FirstIdeal(129);
    MovesOn(FirstHeard(129), 0);
    assert Run(actions).arrivals == [129] && CloseStep(Run(actions), Arrive(0), b);
    actions := Append(actions, Arrive(0), b.data);
  }

  lemma FirstIdeal(id: int)
    ensures IdealRun([id]).newest == id
  {
  }

  lemma IdealPair(id: int, older: int)
    requires older < id
    ensures IdealRun([id, older]).newest == id
  {
    assert [id, older][..1] == [id];
  }

  lemma MovesOn(w: Window, id: int)
    requires 0 < SeqDelta(id % SEQS, w.last)
    ensures Judge(w, id % SEQS).1 == Accepted && Judge(w, id % SEQS).0.last == id % SEQS
  {
  }

  lemma TooOldFrom(w: Window, id: int)
    requires SeqDelta(id % SEQS, w.last) <= -WINDOW
    ensures Judge(w, id % SEQS).1 != Accepted
  {
  }
}
