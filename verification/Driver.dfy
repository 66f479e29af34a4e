/**
 * The life of one sensor driver: warm-up, one measurement at a time under a deadline, and
 * retirement after three failures in a row. Drivers are tables of functions over their own
 * scratch state `P`, which is all they may touch.
 */
module Driver {
  import opened Bytes

  const FAULT_THRESHOLD := 3
  const OP_TIMEOUT_FLOOR_MS := 250
  const OP_TIMEOUT_FACTOR := 4

  datatype Err = Ok | Bus | Timeout | NotReady | Crc | Range | State | NoChannel | Faulted

  datatype Reading = Reading(value: int, channel: nat, quality: nat, tsUs: int)

  /** A driver; every function but `poll` may be missing, and a driver without `poll` is refused. */
  datatype Vtable<!P> = Vtable(
    channelCount: nat,
    warmupMs: nat,
    minIntervalMs: nat,
    blank: P,
    init: Option<(P, nat) -> (P, Err)>,
    startRead: Option<P -> (P, Err)>,
    poll: Option<(P, nat) -> (P, Err, Reading)>,
    sleep: Option<P -> (P, Err)>)

  datatype Phase = Empty | Warmup | Idle | Measuring | Ready | Sleeping | Retired

  /** A call into a driver's own code. */
  datatype Call = InitCall | StartCall | PollCall(channel: nat) | SleepCall

  /** One component; `calls` is every call made into its driver since it was bound. */
  datatype Ctx<!P> = Ctx(vt: Option<Vtable<P>>, phase: Phase, errors: nat, opStartedUs: int, scratch: P, calls: seq<Call>)

  /** What an operation reports. */
  datatype Result = Result(err: Err, reading: Option<Reading>)

  predicate IsError(e: Err) {
    e != Ok && e != NotReady
  }

  function OpTimeoutMs<P>(vt: Vtable<P>): nat {
    Max(vt.warmupMs * OP_TIMEOUT_FACTOR, OP_TIMEOUT_FLOOR_MS)
  }

  function ElapsedMs<P>(c: Ctx<P>, now: int): nat {
    var delta := now - c.opStartedUs;
    if delta < 0 then 0 else delta / 1000
  }

  /** Accounts for a call's result: a failure lengthens the streak, and at three it retires. */
  function Fail<P>(c: Ctx<P>, e: Err): Ctx<P> {
    if !IsError(e) then c else
      var errors := if c.errors < 0xFF then c.errors + 1 else c.errors;
      c.(errors := errors, phase := if errors >= FAULT_THRESHOLD then Retired else c.phase)
  }

  function Refuse(e: Err): Result {
    Result(e, None)
  }

  function AwakePhase<P>(vt: Vtable<P>): Phase {
    if vt.warmupMs > 0 then Warmup else Idle
  }

  function Bind<P>(c: Ctx<P>, vt: Vtable<P>, addr: nat, now: int): (Ctx<P>, Result) {
    if vt.channelCount == 0 || vt.poll.None? then (c, Refuse(State)) else
      var blank := Ctx(Some(vt), Empty, 0, now, vt.blank, []);
      if vt.init.None? then (blank.(phase := AwakePhase(vt)), Refuse(Ok)) else
        var (p, err) := vt.init.value(vt.blank, addr);
        var called := blank.(scratch := p, calls := [InitCall]);
        if err != Ok then (called.(phase := Retired, errors := FAULT_THRESHOLD), Refuse(err))
        else (called.(phase := AwakePhase(vt)), Refuse(Ok))
  }

  /** Begins a measurement; a component still warming up, or measuring, is not ready. */
  function StartRead<P>(c: Ctx<P>, now: int): (Ctx<P>, Result) {
    if c.vt.None? then (c, Refuse(State))
    else if c.phase.Retired? then (c, Refuse(Faulted))
    else if c.phase.Warmup? then
      if ElapsedMs(c, now) < c.vt.value.warmupMs then (c, Refuse(NotReady)) else Start(c.(phase := Idle), now)
    else if c.phase.Sleeping? then
      if c.vt.value.warmupMs > 0 then (c.(opStartedUs := now, phase := Warmup), Refuse(NotReady))
      else Start(c.(phase := Idle), now)
    else if c.phase.Idle? || c.phase.Ready? then Start(c, now)
    else if c.phase.Measuring? then (c, Refuse(NotReady))
    else (c, Refuse(State))
  }

  function Start<P>(c: Ctx<P>, now: int): (Ctx<P>, Result)
    requires c.vt.Some?
  {
    var begun := c.(opStartedUs := now);
    if c.vt.value.startRead.None? then (begun.(phase := Measuring), Refuse(Ok)) else
      var (p, err) := c.vt.value.startRead.value(c.scratch);
      var called := begun.(scratch := p, calls := c.calls + [StartCall]);
      (Fail(if err == Ok then called.(phase := Measuring) else called, err), Refuse(err))
  }

  /** Asks for one channel; not ready past the deadline is a timeout, and a failure ends the measurement. */
  function Poll<P>(c: Ctx<P>, channel: nat, now: int): (Ctx<P>, Result) {
    if c.vt.None? then (c, Refuse(State))
    else if c.phase.Retired? then (c, Refuse(Faulted))
    else if channel >= c.vt.value.channelCount then (c, Refuse(NoChannel))
    else if !c.phase.Measuring? && !c.phase.Ready? then (c, Refuse(State))
    else if c.vt.value.poll.None? then (c, Refuse(State))
    else
      var (p, e, reading) := c.vt.value.poll.value(c.scratch, channel);
      var called := c.(scratch := p, calls := c.calls + [PollCall(channel)]);
      if e == NotReady && ElapsedMs(c, now) <= OpTimeoutMs(c.vt.value) then (called, Refuse(NotReady)) else
        var err := if e == NotReady then Timeout else e;
        if err == Ok then (called.(phase := Ready, errors := 0), Result(Ok, Some(reading.(channel := channel)))) else
          var failed := Fail(called, err);
          (if failed.phase.Retired? then failed else failed.(phase := Idle), Refuse(err))
  }

  function Sleep<P>(c: Ctx<P>): (Ctx<P>, Result) {
    if c.vt.None? then (c, Refuse(State))
    else if c.phase.Retired? then (c, Refuse(Faulted))
    else if c.phase.Empty? then (c, Refuse(State))
    else if c.vt.value.sleep.None? then (c.(phase := Sleeping), Refuse(Ok))
    else
      var (p, err) := c.vt.value.sleep.value(c.scratch);
      var called := c.(scratch := p, calls := c.calls + [SleepCall]);
      if err == Ok then (called.(phase := Sleeping), Refuse(Ok))
      else (Fail(called, err), Refuse(err))
  }

  function ClearFault<P>(c: Ctx<P>, now: int): Ctx<P> {
    if c.vt.None? || !c.phase.Retired? then c
    else c.(errors := 0, opStartedUs := now, phase := AwakePhase(c.vt.value))
  }

  class Context<P> {
    var vt: Option<Vtable<P>>
    var phase: Phase
    var errors: nat
    var opStartedUs: int
    var scratch: P
    ghost var calls: seq<Call>

    ghost function View(): Ctx<P>
      reads this
    {
      Ctx(vt, phase, errors, opStartedUs, scratch, calls)
    }

    constructor (blank: P)
      ensures View() == Ctx(None, Empty, 0, 0, blank, [])
    {
      vt, phase, errors, opStartedUs, scratch, calls := None, Empty, 0, 0, blank, [];
    }

    method CountFailure(e: Err)
      modifies this`phase, this`errors
      ensures View() == Fail(old(View()), e)
    {
      if !IsError(e) { return; }
      if errors < 0xFF { errors := errors + 1; }
      if errors >= FAULT_THRESHOLD { phase := Retired; }
    }

    method DoBind(driver: Vtable<P>, addr: nat, now: int) returns (err: Err)
      modifies this
      ensures var (c, r) := Bind(old(View()), driver, addr, now); View() == c && err == r.err
    {
      if driver.channelCount == 0 || driver.poll.None? { return State; }
      vt, phase, errors, opStartedUs, scratch, calls := Some(driver), Empty, 0, now, driver.blank, [];
      if driver.init.Some? {
        var answer := driver.init.value(scratch, addr);
        scratch, calls := answer.0, calls + [InitCall];
        if answer.1 != Ok {
          phase := Retired;
          errors := FAULT_THRESHOLD;
          return answer.1;
        }
      }
      phase := if driver.warmupMs > 0 then Warmup else Idle;
      return Ok;
    }

    method DoStartRead(now: int) returns (err: Err)
      modifies this
      ensures var (c, r) := StartRead(old(View()), now); View() == c && err == r.err
    {
      if vt.None? { return State; }
      if phase.Retired? { return Faulted; }
      match phase {
        case Warmup =>
          var delta := now - opStartedUs;
          var elapsed := if delta < 0 then 0 else delta / 1000;
          if elapsed < vt.value.warmupMs { return NotReady; }
          phase := Idle;
        case Sleeping =>
          opStartedUs := now;
          if vt.value.warmupMs > 0 {
            phase := Warmup;
            return NotReady;
          }
          phase := Idle;
        case Idle =>
        case Ready =>
        case Measuring => return NotReady;
        case _ => return State;
      }
      opStartedUs := now;
      if vt.value.startRead.None? {
        phase := Measuring;
        return Ok;
      }
      var answer := vt.value.startRead.value(scratch);
      scratch, calls := answer.0, calls + [StartCall];
      err := answer.1;
      if err == Ok { phase := Measuring; }
      CountFailure(err);
    }

    method DoPoll(channel: nat, now: int) returns (err: Err, reading: Reading)
      modifies this
      ensures var (c, r) := Poll(old(View()), channel, now);
              View() == c && err == r.err && (r.reading.Some? ==> reading == r.reading.value)
    {
      reading := Reading(0, 0, 0, 0);
      if vt.None? { return State, reading; }
      if phase.Retired? { return Faulted, reading; }
      if channel >= vt.value.channelCount { return NoChannel, reading; }
      if !phase.Measuring? && !phase.Ready? { return State, reading; }
      if vt.value.poll.None? { return State, reading; }
      var answer := vt.value.poll.value(scratch, channel);
      scratch, calls := answer.0, calls + [PollCall(channel)];
      err, reading := answer.1, answer.2;
      if err == NotReady {
        var delta := now - opStartedUs;
        var elapsed := if delta < 0 then 0 else delta / 1000;
        if elapsed <= OpTimeoutMs(vt.value) { return; }
        err := Timeout;
      }
      if err == Ok {
        reading := reading.(channel := channel);
        phase := Ready;
        errors := 0;
        return;
      }
      CountFailure(err);
      if !phase.Retired? { phase := Idle; }
    }

    method DoSleep() returns (err: Err)
      modifies this
      ensures var (c, r) := Sleep(old(View())); View() == c && err == r.err
    {
      if vt.None? { return State; }
      if phase.Retired? { return Faulted; }
      if phase.Empty? { return State; }
      if vt.value.sleep.Some? {
        var answer := vt.value.sleep.value(scratch);
        scratch, calls := answer.0, calls + [SleepCall];
        if answer.1 != Ok {
          CountFailure(answer.1);
          return answer.1;
        }
      }
      phase := Sleeping;
      return Ok;
    }

    method DoClearFault(now: int)
      modifies this
      ensures View() == ClearFault(old(View()), now)
    {
      if vt.None? || !phase.Retired? { return; }
      errors := 0;
      opStartedUs := now;
      phase := if vt.value.warmupMs > 0 then Warmup else Idle;
    }
  }

  // ---- whole runs ---------------------------------------------------------------------

  datatype Op<!P> =
    | BindOp(vt: Vtable<P>, addr: nat, now: int)
    | StartOp(now: int)
    | PollOp(channel: nat, now: int)
    | SleepOp
    | ClearOp(now: int)

  function Step<P>(c: Ctx<P>, op: Op<P>): (Ctx<P>, Result) {
    match op
    case BindOp(vt, addr, now) => Bind(c, vt, addr, now)
    case StartOp(now) => StartRead(c, now)
    case PollOp(channel, now) => Poll(c, channel, now)
    case SleepOp => Sleep(c)
    case ClearOp(now) => (ClearFault(c, now), Refuse(Ok))
  }

  function Run<P>(c: Ctx<P>, ops: seq<Op<P>>): Ctx<P> {
    if ops == [] then c else Step(Run(c, ops[..|ops| - 1]), ops[|ops| - 1]).0
  }

  /** The failures in a row: since a reading came out, the fault was cleared or the driver was bound. */
  function Streak<P>(c: Ctx<P>, ops: seq<Op<P>>): nat {
    if ops == [] then 0
    else StreakAfter(Run(c, ops[..|ops| - 1]), ops[|ops| - 1], Streak(c, ops[..|ops| - 1]))
  }

  /** A driver is bound by it. */
  predicate Binds<P>(op: Op<P>) {
    op.BindOp? && op.vt.channelCount > 0 && op.vt.poll.Some?
  }

  predicate InitFails<P>(op: Op<P>)
    requires op.BindOp?
  {
    op.vt.init.Some? && op.vt.init.value(op.vt.blank, op.addr).1 != Ok
  }

  /** The operation ran code of the driver. */
  predicate Called<P>(before: Ctx<P>, op: Op<P>) {
    |Step(before, op).0.calls| > |before.calls|
  }

  function StreakAfter<P>(before: Ctx<P>, op: Op<P>, streak: nat): nat {
    var r := Step(before, op).1;
    if op.ClearOp? && before.vt.Some? && streak >= FAULT_THRESHOLD then 0
    else if Binds(op) then if InitFails(op) then FAULT_THRESHOLD else 0
    else if r.reading.Some? then 0
    else if !op.BindOp? && Called(before, op) && r.err != Ok && r.err != NotReady then streak + 1
    else streak
  }

  function Unbound<P>(blank: P): Ctx<P> {
    Ctx(None, Empty, 0, 0, blank, [])
  }

  /**
   * Whatever is done with a component and however its driver behaves, it is retired exactly
   * when three calls in a row have failed, and the count it keeps is that streak.
   */
  lemma {:induction false} RetiredIff<P>(blank: P, ops: seq<Op<P>>)
    ensures Agrees(Run(Unbound(blank), ops), Streak(Unbound(blank), ops))
  {
    hide Step, Agrees, StreakAfter;
    if ops == [] {
      NothingBound(blank);
    } else {
      RetiredIff(blank, ops[..|ops| - 1]);
      AgreesStep(Run(Unbound(blank), ops[..|ops| - 1]), ops[|ops| - 1], Streak(Unbound(blank), ops[..|ops| - 1]));
    }
  }

  /** The count is the streak, and retirement is a streak of three. */
  predicate Agrees<P>(c: Ctx<P>, streak: nat) {
    && c.errors == streak <= FAULT_THRESHOLD
    && (c.phase.Retired? <==> streak >= FAULT_THRESHOLD)
    && (c.phase.Empty? <==> c.vt.None?)
  }

  lemma NothingBound<P>(blank: P)
    ensures Agrees(Unbound(blank), 0)
  {
  }

  lemma AgreesStep<P>(c: Ctx<P>, op: Op<P>, streak: nat)
    requires Agrees(c, streak)
    ensures Agrees(Step(c, op).0, StreakAfter(c, op, streak))
  {
    match op
    case BindOp(_, _, _) =>
    case StartOp(now) => hide Poll, Bind, Sleep;
    case PollOp(_, _) => hide StartRead, Bind, Sleep, OpTimeoutMs, ElapsedMs;
    case SleepOp => hide StartRead, Bind, Poll;
    case ClearOp(_) =>
  }

  /** Once retired, no code of the driver runs, and nothing changes, until the fault is cleared. */
  lemma {:induction false} RetiredIsLeftAlone<P>(c: Ctx<P>, ops: seq<Op<P>>)
    requires c.phase.Retired? && c.vt.Some?
    requires forall k :: 0 <= k < |ops| ==> !ops[k].ClearOp? && !ops[k].BindOp?
    ensures Run(c, ops) == c
  {
    if ops != [] {
      RetiredIsLeftAlone(c, ops[..|ops| - 1]);
    }
  }

  /** A driver that has nothing yet is waited for until 250 ms or four times its warm-up are over, whichever is more. */
  lemma NotReadyIff<P>(c: Ctx<P>, channel: nat, now: int)
    requires c.vt.Some? && c.vt.value.poll.Some? && channel < c.vt.value.channelCount
    requires c.phase.Measuring? || c.phase.Ready?
    requires c.vt.value.poll.value(c.scratch, channel).1 == NotReady
    ensures Poll(c, channel, now).1.err ==
            if now - c.opStartedUs < 251_000 || now - c.opStartedUs < 4_000 * c.vt.value.warmupMs + 1_000 then NotReady else Timeout
  {
    var d := OpTimeoutMs(c.vt.value);
    var delta := now - c.opStartedUs;
    assert delta / 1000 <= d <==> delta < (d + 1) * 1000;
  }

  // ---- the driver is believed, and only its own code touches its state -----------------------

  /** What a call does: the driver's next state and what it says. */
  function Says<P>(vt: Vtable<P>, p: P, call: Call): (P, Err) {
    match call
    case InitCall => (p, Ok)
    case StartCall => if vt.startRead.None? then (p, Ok) else vt.startRead.value(p)
    case PollCall(ch) => if vt.poll.None? then (p, Ok) else (vt.poll.value(p, ch).0, vt.poll.value(p, ch).1)
    case SleepCall => if vt.sleep.None? then (p, Ok) else vt.sleep.value(p)
  }

  /** The call an operation may make. */
  function CallOf<P>(op: Op<P>): Call {
    match op
    case BindOp(_, _, _) => InitCall
    case StartOp(_) => StartCall
    case PollOp(channel, _) => PollCall(channel)
    case SleepOp => SleepCall
    case ClearOp(_) => InitCall
  }

  /**
   * An operation makes at most its own call. What it then reports is what the driver said, but
   * for an overdue "not ready", and a reading is the driver's under the channel asked for; and
   * the driver's state is what its own code left.
   */
  lemma CallsAreHonest<P>(c: Ctx<P>, op: Op<P>)
    requires c.vt.Some? && !op.BindOp?
    ensures var (t, r) := Step(c, op); var (p, said) := Says(c.vt.value, c.scratch, CallOf(op));
            && t.vt == c.vt
            && if !Called(c, op) then t.calls == c.calls && t.scratch == c.scratch && r.reading.None?
               else
                 && t.calls == c.calls + [CallOf(op)] && t.scratch == p
                 && (r.err == said || (op.PollOp? && said == NotReady && r.err == Timeout))
                 && (r.reading.Some? <==> op.PollOp? && said == Ok)
                 && (r.reading.Some? ==> r.reading.value == c.vt.value.poll.value(c.scratch, op.channel).2.(channel := op.channel))
  {
    hide OpTimeoutMs, ElapsedMs;
  }

  // ---- when the driver's code is run, from the history alone ----------------------------------

  /** How far the current measurement is: none, accepted, or with a reading out. */
  datatype Progress = NotBegun | Asked | HasReading

  /** When the component was last powered up, whether it was put to sleep since, and its measurement. */
  datatype History = History(powered: int, asleep: bool, progress: Progress)

  function Heard<P>(c: Ctx<P>, ops: seq<Op<P>>): History {
    if ops == [] then History(0, false, NotBegun) else
      var n := |ops| - 1;
      HeardNext(Heard(c, ops[..n]), Run(c, ops[..n]), ops[n], Streak(c, ops[..n]))
  }

  function HeardNext<P>(h: History, before: Ctx<P>, op: Op<P>, streak: nat): History {
    var r := Step(before, op).1;
    match op
    case BindOp(_, _, now) => if Binds(op) then History(now, false, NotBegun) else h
    case ClearOp(now) => if before.vt.Some? && streak >= 3 then History(now, false, NotBegun) else h
    case SleepOp => if before.vt.Some? && r.err == Ok then h.(asleep := true, progress := NotBegun) else h
    case StartOp(now) =>
      if before.vt.None? || streak >= 3 then h else
        History(if h.asleep && before.vt.value.warmupMs > 0 then now else h.powered, false, if r.err == Ok then Asked else h.progress)
    case PollOp(_, _) =>
      if r.reading.Some? then h.(progress := HasReading)
      else if Called(before, op) && r.err != NotReady then h.(progress := NotBegun)
      else h
  }

  function LastTime<P>(ops: seq<Op<P>>): int {
    if ops == [] then 0 else
      match ops[|ops| - 1]
      case BindOp(_, _, now) => now
      case StartOp(now) => now
      case PollOp(_, now) => now
      case ClearOp(now) => now
      case SleepOp => LastTime(ops[..|ops| - 1])
  }

  /** The clock does not go back. */
  predicate Forward<P>(ops: seq<Op<P>>) {
    ops == [] || (Forward(ops[..|ops| - 1]) && LastTime(ops[..|ops| - 1]) <= LastTime(ops))
  }

  /** The phase is what the history says. */
  predicate Matches<P>(c: Ctx<P>, h: History, last: int) {
    c.vt.Some? && !c.phase.Retired? ==>
      && (c.phase.Measuring? <==> h.progress.Asked?) && (c.phase.Ready? <==> h.progress.HasReading?)
      && (c.phase.Sleeping? <==> h.asleep) && !c.phase.Empty? && h.powered <= last
      && (c.phase.Warmup? ==> c.vt.value.warmupMs > 0 && c.opStartedUs == h.powered)
      && (!c.phase.Warmup? && !c.phase.Sleeping? ==> last - h.powered >= c.vt.value.warmupMs * 1000)
  }

  lemma {:induction false} HistoryMatches<P>(blank: P, ops: seq<Op<P>>)
    requires Forward(ops)
    ensures Matches(Run(Unbound(blank), ops), Heard(Unbound(blank), ops), LastTime(ops))
    decreases |ops|
  {
    hide Step, StreakAfter, HeardNext, Matches;
    var c0 := Unbound(blank);
    if ops == [] {
      NothingHeard(blank);
    } else {
      var n := |ops| - 1;
      HistoryMatches(blank, ops[..n]);
      RetiredIff(blank, ops[..n]);
      MatchesStep(Run(c0, ops[..n]), ops[n], Heard(c0, ops[..n]), Streak(c0, ops[..n]), LastTime(ops[..n]), LastTime(ops));
    }
  }

  lemma NothingHeard<P>(blank: P)
    ensures Matches(Unbound(blank), History(0, false, NotBegun), 0)
  {
  }

  lemma MatchesStep<P>(c: Ctx<P>, op: Op<P>, h: History, streak: nat, last: int, now: int)
    requires Matches(c, h, last) && Agrees(c, streak) && last <= now
    requires match op case BindOp(_, _, at) => at == now case StartOp(at) => at == now case PollOp(_, at) => at == now
             case ClearOp(at) => at == now case SleepOp => last == now
    ensures Matches(Step(c, op).0, HeardNext(h, c, op, streak), now)
  {
    match op
    case BindOp(_, _, _) => hide StartRead, Poll, Sleep;
    case StartOp(_) => hide Poll, Bind, Sleep;
    case PollOp(_, _) => hide StartRead, Bind, Sleep, OpTimeoutMs, ElapsedMs;
    case SleepOp => hide StartRead, Bind, Poll;
    case ClearOp(_) => hide StartRead, Bind, Poll, Sleep;
  }

  /**
   * In any history in which the clock does not go back the driver's code is run exactly when
   * this allows it: nothing after three failures in a row; a start when it has one, none is
   * unanswered, and the component is awake and has been powered for its warm-up; a poll of a
   * channel it has, after an accepted start that no failure, sleep or reset has ended since.
   */
  lemma CalledIff<P>(blank: P, ops: seq<Op<P>>, op: Op<P>)
    requires Forward(ops + [op])
    requires Run(Unbound(blank), ops).vt.Some?
    ensures var c0 := Unbound(blank);
            var c, h, healthy := Run(c0, ops), Heard(c0, ops), Streak(c0, ops) < 3;
            var vt := c.vt.value;
            && (op.StartOp? ==>
                  (Called(c, op) <==>
                     && healthy && vt.startRead.Some? && h.progress != Asked
                     && (vt.warmupMs == 0 || (!h.asleep && op.now - h.powered >= vt.warmupMs * 1000))))
            && (op.PollOp? && vt.poll.Some? ==> (Called(c, op) <==> healthy && op.channel < vt.channelCount && h.progress != NotBegun))
            && (op.SleepOp? ==> (Called(c, op) <==> healthy && vt.sleep.Some?))
            && (op.ClearOp? ==> !Called(c, op))
  {
    hide Heard, Streak, Run;
    assert (ops + [op])[..|ops|] == ops;
    HistoryMatches(blank, ops);
    RetiredIff(blank, ops);
    match op
    case BindOp(_, _, _) => hide StartRead, Poll, Sleep;
    case StartOp(_) => hide Poll, Bind, Sleep;
    case PollOp(_, _) => hide StartRead, Bind, Sleep, OpTimeoutMs, ElapsedMs;
    case SleepOp => hide StartRead, Bind, Poll;
    case ClearOp(_) => hide StartRead, Bind, Poll, Sleep;
  }
}
