/**
 * One sensor rule: it fires once a comparison has held for the debounce time, and again only
 * after a sample beyond the hysteresis band on the other side. Values are exact reals.
 */
module RuleEvaluator {
  import opened Bytes

  /** The comparisons; `Unknown` is any other number a rule may carry, which never holds. */
  datatype Op = Gt | Lt | Gte | Lte | Eq | Neq | Unknown

  datatype Rule = Rule(op: Op, threshold: real, hysteresis: real, debounceMs: nat)

  datatype State = State(armed: bool, since: Option<nat>, fired: bool)

  datatype Sample = Sample(value: real, at: nat)

  predicate Holds(rule: Rule, value: real) {
    match rule.op
    case Gt => value > rule.threshold
    case Lt => value < rule.threshold
    case Gte => value >= rule.threshold
    case Lte => value <= rule.threshold
    case Eq => value == rule.threshold
    case Neq => value != rule.threshold
    case Unknown => false
  }

  /** The condition is over by more than the hysteresis; for (in)equality, over at all. */
  predicate Resets(rule: Rule, value: real) {
    match rule.op
    case Gt => value < rule.threshold - rule.hysteresis
    case Gte => value < rule.threshold - rule.hysteresis
    case Lt => value > rule.threshold + rule.hysteresis
    case Lte => value > rule.threshold + rule.hysteresis
    case Eq => !Holds(rule, value)
    case Neq => !Holds(rule, value)
    case Unknown => true
  }

  function Init(): State {
    State(true, None, false)
  }

  /** Time held: the firmware subtracts 32-bit clocks, the host unbounded ones. */
  function HeldMs(at: nat, since: nat, wraps: bool): int {
    if wraps then (at - since) % TWO32 else at - since
  }

  function Step(st: State, rule: Rule, value: real, at: nat, wraps: bool): (State, bool) {
    if !st.armed then (if Resets(rule, value) then Init() else st, false)
    else if !Holds(rule, value) then (st.(since := None), false)
    else
      var since := if st.since.Some? then st.since.value else at;
      if !st.fired && HeldMs(at, since, wraps) >= rule.debounceMs then (State(false, Some(since), true), true)
      else (st.(since := Some(since)), false)
  }

  class RuleState {
    var armed: bool
    var hasConditionSince: bool
    var conditionSinceMs: nat
    var fired: bool

    function View(): State
      reads this
    {
      State(armed, if hasConditionSince then Some(conditionSinceMs) else None, fired)
    }

    constructor ()
      ensures View() == Init()
    {
      armed, hasConditionSince, conditionSinceMs, fired := true, false, 0, false;
    }

    /** Feeds one reading; true at the moment the rule fires. */
    method DoStep(rule: Rule, value: real, at: nat) returns (fires: bool)
      modifies this
      ensures (View(), fires) == Step(old(View()), rule, value, at, true)
    {
      if !armed {
        if Resets(rule, value) {
          armed := true;
          fired := false;
          hasConditionSince := false;
        }
        return false;
      }
      if !Holds(rule, value) {
        hasConditionSince := false;
        return false;
      }
      if !hasConditionSince {
        conditionSinceMs := at;
        hasConditionSince := true;
      }
      var held := (at - conditionSinceMs) % TWO32;
      if !fired && held >= rule.debounceMs {
        fired := true;
        armed := false;
        return true;
      }
      return false;
    }
  }

  // ---- whole histories ------------------------------------------------------------------

  function Run(rule: Rule, ss: seq<Sample>): State {
    if ss == [] then Init() else
      var s := ss[|ss| - 1];
      Step(Run(rule, ss[..|ss| - 1]), rule, s.value, s.at, false).0
  }

  /** At which samples the machine fires. */
  function Firings(rule: Rule, ss: seq<Sample>): (os: seq<bool>)
    ensures |os| == |ss|
  {
    if ss == [] then [] else
      var s := ss[|ss| - 1];
      Firings(rule, ss[..|ss| - 1]) + [Step(Run(rule, ss[..|ss| - 1]), rule, s.value, s.at, false).1]
  }

  // ---- the specification ------------------------------------------------------------------

  /** A sample past the band lies strictly between. */
  predicate Rearmed(rule: Rule, ss: seq<Sample>, f: int, i: int)
    requires -1 <= f && i <= |ss|
  {
    exists r :: f < r < i && Resets(rule, ss[r].value)
  }

  /** Every firing before `k` was re-armed before `i`. */
  predicate Open(rule: Rule, ss: seq<Sample>, os: seq<bool>, i: nat, k: nat)
    requires i <= |ss| && k <= |os|
  {
    forall f :: 0 <= f < k && os[f] ==> Rearmed(rule, ss, f, i)
  }

  /** The comparison holds at every sample from `i` up to `k`. */
  predicate Holding(rule: Rule, ss: seq<Sample>, i: nat, k: nat)
    requires k <= |ss|
  {
    forall j :: i <= j < k ==> Holds(rule, ss[j].value)
  }

  /** A run of holding samples from `i` to `k`, begun since the last re-arm, long enough. */
  predicate Due(rule: Rule, ss: seq<Sample>, os: seq<bool>, i: nat, k: nat)
    requires i <= k < |ss| && k <= |os|
  {
    Open(rule, ss, os, i, k) && Holding(rule, ss, i, k + 1) && ss[k].at - ss[i].at >= rule.debounceMs
  }

  predicate ShouldFire(rule: Rule, ss: seq<Sample>, os: seq<bool>, k: nat)
    requires k < |ss| && k <= |os|
  {
    exists i :: 0 <= i <= k && Due(rule, ss, os, i, k)
  }

  /** A set of firings that obeys the rule. */
  predicate Meets(rule: Rule, ss: seq<Sample>, os: seq<bool>) {
    |os| == |ss| && forall k :: 0 <= k < |ss| ==> (os[k] <==> ShouldFire(rule, ss, os, k))
  }

  predicate Ordered(ss: seq<Sample>) {
    forall i, j :: 0 <= i <= j < |ss| ==> ss[i].at <= ss[j].at
  }

  // ---- the machine meets it, and nothing else does ----------------------------------------

  /** A run starting at `i` that is still holding. */
  predicate Candidate(rule: Rule, ss: seq<Sample>, os: seq<bool>, i: nat)
    requires i <= |ss| == |os|
  {
    Open(rule, ss, os, i, |ss|) && Holding(rule, ss, i, |ss|)
  }

  /** The remembered start is the earliest run still holding. */
  predicate StartsAt(rule: Rule, ss: seq<Sample>, os: seq<bool>, since: nat, s: nat)
    requires s <= |ss| == |os|
  {
    && s < |ss| && ss[s].at == since && Candidate(rule, ss, os, s)
    && forall i :: 0 <= i < s ==> !Candidate(rule, ss, os, i)
  }

  ghost predicate Inv(rule: Rule, ss: seq<Sample>, os: seq<bool>, st: State)
    requires |ss| == |os|
  {
    && st.fired == !st.armed
    && (st.armed <==> Open(rule, ss, os, |ss|, |ss|))
    && (st.armed && st.since.None? ==> forall i :: 0 <= i < |ss| ==> !Candidate(rule, ss, os, i))
    && (st.armed && st.since.Some? ==> exists s :: 0 <= s < |ss| && StartsAt(rule, ss, os, st.since.value, s))
  }

  lemma OpenSnoc(rule: Rule, ss: seq<Sample>, os: seq<bool>, x: Sample, o: bool, i: nat)
    requires |ss| == |os| && i <= |ss|
    ensures Open(rule, ss + [x], os + [o], i, |ss| + 1) <==> Open(rule, ss, os, i, |ss|) && !o
    ensures Open(rule, ss + [x], os + [o], i, |ss|) <==> Open(rule, ss, os, i, |ss|)
  {
    var ss', os' := ss + [x], os + [o];
    assert forall f :: 0 <= f < |ss| ==> os'[f] == os[f];
    forall f | 0 <= f < |ss|
      ensures Rearmed(rule, ss', f, i) <==> Rearmed(rule, ss, f, i)
    {
      assert forall r :: f < r < i ==> ss'[r] == ss[r];
    }
    assert os'[|ss|] == o;
    assert !Rearmed(rule, ss', |ss|, i);
  }

  lemma HoldingSnoc(rule: Rule, ss: seq<Sample>, x: Sample, i: nat)
    requires i <= |ss|
    ensures Holding(rule, ss + [x], i, |ss| + 1) <==> Holding(rule, ss, i, |ss|) && Holds(rule, x.value)
  {
    var ss' := ss + [x];
    assert forall j :: 0 <= j < |ss| ==> ss'[j] == ss[j];
    assert ss'[|ss|] == x;
  }

  lemma RearmedSnoc(rule: Rule, ss: seq<Sample>, x: Sample, f: nat)
    requires f < |ss|
    ensures Rearmed(rule, ss + [x], f, |ss| + 1) <==> Rearmed(rule, ss, f, |ss|) || Resets(rule, x.value)
  {
    var ss' := ss + [x];
    assert forall r :: 0 <= r < |ss| ==> ss'[r] == ss[r];
    assert ss'[|ss|] == x;
  }

  lemma OpenAfter(rule: Rule, ss: seq<Sample>, os: seq<bool>, x: Sample, o: bool)
    requires |ss| == |os|
    ensures Open(rule, ss + [x], os + [o], |ss| + 1, |ss| + 1) <==>
            !o && (Open(rule, ss, os, |ss|, |ss|) || Resets(rule, x.value))
  {
    var ss', os' := ss + [x], os + [o];
    assert forall f :: 0 <= f < |ss| ==> os'[f] == os[f];
    forall f | 0 <= f < |ss|
      ensures Rearmed(rule, ss', f, |ss| + 1) <==> Rearmed(rule, ss, f, |ss|) || Resets(rule, x.value)
    {
      RearmedSnoc(rule, ss, x, f);
    }
    assert os'[|ss|] == o;
    assert !Rearmed(rule, ss', |ss|, |ss| + 1);
    hide Rearmed;
    if Open(rule, ss', os', |ss| + 1, |ss| + 1) && !Resets(rule, x.value) {
      forall f | 0 <= f < |ss| && os[f]
        ensures Rearmed(rule, ss, f, |ss|)
      {
        assert os'[f];
      }
    }
    if !o && (Open(rule, ss, os, |ss|, |ss|) || Resets(rule, x.value)) {
      forall f | 0 <= f < |ss| + 1 && os'[f]
        ensures Rearmed(rule, ss', f, |ss| + 1)
      {
        assert f < |ss| && os[f];
      }
    }
  }

  lemma OpenEarlier(rule: Rule, ss: seq<Sample>, os: seq<bool>, i: nat, j: nat)
    requires i <= j <= |ss| == |os| && Open(rule, ss, os, i, |ss|)
    ensures Open(rule, ss, os, j, |ss|)
  {
    forall f | 0 <= f < |ss| && os[f]
      ensures Rearmed(rule, ss, f, j)
    {
      assert Rearmed(rule, ss, f, i);
    }
  }

  lemma CandidateSnoc(rule: Rule, ss: seq<Sample>, os: seq<bool>, x: Sample, o: bool, i: nat)
    requires |ss| == |os| && i <= |ss|
    ensures Candidate(rule, ss + [x], os + [o], i) <==> Candidate(rule, ss, os, i) && Holds(rule, x.value) && !o
  {
    hide Open, Holding;
    OpenSnoc(rule, ss, os, x, o, i);
    HoldingSnoc(rule, ss, x, i);
  }

  /** When a sample should fire, in terms of the runs still holding before it. */
  lemma ShouldFireSnoc(rule: Rule, ss: seq<Sample>, os: seq<bool>, x: Sample, o: bool)
    requires |ss| == |os|
    ensures ShouldFire(rule, ss + [x], os + [o], |ss|) <==>
            Holds(rule, x.value) && exists i :: 0 <= i <= |ss| && Candidate(rule, ss, os, i) && LongEnough(rule, ss, x, i)
  {
    hide Open, Holding;
    var ss', os' := ss + [x], os + [o];
    forall i | 0 <= i <= |ss|
      ensures Due(rule, ss', os', i, |ss|) <==> Candidate(rule, ss, os, i) && Holds(rule, x.value) && LongEnough(rule, ss, x, i)
    {
      OpenSnoc(rule, ss, os, x, o, i);
      HoldingSnoc(rule, ss, x, i);
    }
  }

  /** From sample `i`, or from `x` itself. */
  predicate LongEnough(rule: Rule, ss: seq<Sample>, x: Sample, i: nat)
    requires i <= |ss|
  {
    x.at - (if i < |ss| then ss[i].at else x.at) >= rule.debounceMs
  }

  lemma InvStep(rule: Rule, ss: seq<Sample>, os: seq<bool>, st: State, x: Sample)
    requires |ss| == |os| && Inv(rule, ss, os, st) && Ordered(ss + [x])
    ensures var (st', o) := Step(st, rule, x.value, x.at, false);
            Inv(rule, ss + [x], os + [o], st') && (o <==> ShouldFire(rule, ss + [x], os + [o], |ss|))
  {
    hide Open, Holding, Holds, Resets, Candidate, ShouldFire;
    var n := |ss|;
    var (st', o) := Step(st, rule, x.value, x.at, false);
    var ss', os' := ss + [x], os + [o];
    ShouldFireSnoc(rule, ss, os, x, o);
    OpenAfter(rule, ss, os, x, o);
    forall i | 0 <= i <= n
      ensures Candidate(rule, ss', os', i) <==> Candidate(rule, ss, os, i) && Holds(rule, x.value) && !o
    {
      CandidateSnoc(rule, ss, os, x, o, i);
    }
    CandidateNow(rule, ss, os);
    if !st.armed {
      ClosedHasNoCandidate(rule, ss, os);
    } else if Holds(rule, x.value) {
      StepHolding(rule, ss, os, st, x);
    }
  }

  lemma CandidateNow(rule: Rule, ss: seq<Sample>, os: seq<bool>)
    requires |ss| == |os|
    ensures Candidate(rule, ss, os, |ss|) <==> Open(rule, ss, os, |ss|, |ss|)
  {
  }

  lemma ClosedHasNoCandidate(rule: Rule, ss: seq<Sample>, os: seq<bool>)
    requires |ss| == |os| && !Open(rule, ss, os, |ss|, |ss|)
    ensures forall i :: 0 <= i <= |ss| ==> !Candidate(rule, ss, os, i)
  {
    hide Open;
    forall i | 0 <= i <= |ss|
      ensures !Candidate(rule, ss, os, i)
    {
      if Open(rule, ss, os, i, |ss|) {
        OpenEarlier(rule, ss, os, i, |ss|);
      }
    }
  }

  /** Where the machine counts from is where the longest run still holding began. */
  lemma StepHolding(rule: Rule, ss: seq<Sample>, os: seq<bool>, st: State, x: Sample)
    requires |ss| == |os| && Inv(rule, ss, os, st) && Ordered(ss + [x]) && st.armed && Holds(rule, x.value)
    ensures var since := if st.since.Some? then st.since.value else x.at;
            var o := x.at - since >= rule.debounceMs;
            && (o <==> exists i :: 0 <= i <= |ss| && Candidate(rule, ss, os, i) && LongEnough(rule, ss, x, i))
            && (!o ==> exists s :: 0 <= s < |ss| + 1 && StartsAt(rule, ss + [x], os + [o], since, s))
  {
    hide Open, Holding, Holds, Candidate;
    var n := |ss|;
    var ss' := ss + [x];
    var since := if st.since.Some? then st.since.value else x.at;
    var o := x.at - since >= rule.debounceMs;
    CandidateNow(rule, ss, os);
    forall i | 0 <= i <= n
      ensures Candidate(rule, ss', os + [o], i) <==> Candidate(rule, ss, os, i) && Holds(rule, x.value) && !o
    {
      CandidateSnoc(rule, ss, os, x, o, i);
    }
    var s := n;
    if st.since.Some? {
      s :| 0 <= s < n && StartsAt(rule, ss, os, since, s);
    }
    assert ss'[s].at == since;
    forall i | 0 <= i <= n && Candidate(rule, ss, os, i)
      ensures ss'[i].at >= since
    {
      assert i >= s;
      assert ss'[s].at <= ss'[i].at;
    }
    if o {
      assert Candidate(rule, ss, os, s) && LongEnough(rule, ss, x, s);
    } else {
      assert StartsAt(rule, ss', os + [o], since, s);
      forall i | 0 <= i <= n && Candidate(rule, ss, os, i)
        ensures !LongEnough(rule, ss, x, i)
      {
        assert i < n ==> ss'[i] == ss[i];
        assert ss'[n] == x;
      }
    }
  }

  /**
   * Over any time-ordered history the machine fires at exactly the samples that end an
   * unbroken run of holding samples as long as the debounce time, begun since the last re-arm.
   */
  lemma {:induction false} MachineMeets(rule: Rule, ss: seq<Sample>)
    requires Ordered(ss)
    ensures Inv(rule, ss, Firings(rule, ss), Run(rule, ss)) && Meets(rule, ss, Firings(rule, ss))
  {
    hide Inv, Step, Meets, ShouldFire;
    if ss == [] {
      NothingYet(rule);
    } else {
      var n := |ss| - 1;
      var before, x := ss[..n], ss[n];
      assert ss == before + [x];
      MachineMeets(rule, before);
      InvStep(rule, before, Firings(rule, before), Run(rule, before), x);
      MeetsSnoc(rule, before, x, Firings(rule, before), Firings(rule, ss)[n]);
    }
  }

  lemma MeetsSnoc(rule: Rule, ss: seq<Sample>, x: Sample, os: seq<bool>, o: bool)
    requires Meets(rule, ss, os) && (o <==> ShouldFire(rule, ss + [x], os + [o], |ss|))
    ensures Meets(rule, ss + [x], os + [o])
  {
    hide ShouldFire;
    forall k | 0 <= k < |ss|
      ensures ShouldFire(rule, ss + [x], os + [o], k) <==> ShouldFire(rule, ss, os, k)
    {
      OnlyThePast(rule, ss + [x], os + [o], ss, os, k);
    }
  }

  lemma NothingYet(rule: Rule)
    ensures Inv(rule, [], [], Init()) && Meets(rule, [], [])
  {
  }

  /** Whether a sample should fire depends only on the samples up to it and the firings before it. */
  lemma OnlyThePast(rule: Rule, ss: seq<Sample>, os: seq<bool>, ss': seq<Sample>, os': seq<bool>, k: nat)
    requires k < |ss| && k < |ss'| && k <= |os| && k <= |os'| && ss[..k + 1] == ss'[..k + 1] && os[..k] == os'[..k]
    ensures ShouldFire(rule, ss, os, k) <==> ShouldFire(rule, ss', os', k)
  {
    assert forall j :: 0 <= j <= k ==> ss[..k + 1][j] == ss[j] && ss'[..k + 1][j] == ss'[j];
    assert forall j :: 0 <= j < k ==> os[..k][j] == os[j] && os'[..k][j] == os'[j];
    forall i | 0 <= i <= k
      ensures Due(rule, ss, os, i, k) <==> Due(rule, ss', os', i, k)
    {
      forall f | 0 <= f < k
        ensures Rearmed(rule, ss, f, i) <==> Rearmed(rule, ss', f, i)
      {
      }
    }
  }

  /** No other set of firings meets the specification. */
  lemma {:induction false} OnlyTheMachineMeets(rule: Rule, ss: seq<Sample>, os: seq<bool>)
    requires Ordered(ss) && Meets(rule, ss, os)
    ensures os == Firings(rule, ss)
  {
    MachineMeets(rule, ss);
    var fs := Firings(rule, ss);
    var k := 0;
    while k < |ss|
      invariant k <= |ss| && os[..k] == fs[..k]
    {
      hide ShouldFire, Firings;
      OnlyThePast(rule, ss, os, ss, fs, k);
      assert os[k] == fs[k];
      k := k + 1;
    }
    assert os[..|ss|] == os && fs[..|ss|] == fs;
  }

  /** Between any two firings there is a sample past the hysteresis band. */
  lemma ResetBetween(rule: Rule, ss: seq<Sample>, f: nat, k: nat)
    requires Ordered(ss) && f < k < |ss| && Firings(rule, ss)[f] && Firings(rule, ss)[k]
    ensures exists r :: f < r < k && Resets(rule, ss[r].value)
  {
    hide Firings, Resets, Holds, Inv;
    MachineMeets(rule, ss);
    var os := Firings(rule, ss);
    assert ShouldFire(rule, ss, os, k);
    var i :| 0 <= i <= k && Due(rule, ss, os, i, k);
    assert Rearmed(rule, ss, f, i);
    var r :| f < r < i && Resets(rule, ss[r].value);
    assert f < r < k;
  }

  // ---- what that means for the values themselves --------------------------------------------

  /** The machine fires only at samples that satisfy the comparison. */
  lemma FiresOnlyIf(rule: Rule, ss: seq<Sample>, k: nat)
    requires k < |ss| && Firings(rule, ss)[k]
    ensures var v := ss[k].value;
            && (rule.op == Gt ==> v > rule.threshold)
            && (rule.op == Lt ==> v < rule.threshold)
            && (rule.op == Gte ==> v >= rule.threshold)
            && (rule.op == Lte ==> v <= rule.threshold)
            && (rule.op == Eq ==> v == rule.threshold)
            && (rule.op == Neq ==> v != rule.threshold)
            && rule.op != Unknown
    decreases |ss|
  {
    var n := |ss| - 1;
    if k < n {
      FiresOnlyIf(rule, ss[..n], k);
    }
  }

  /** Without a debounce time the first sample fires exactly when it satisfies the comparison. */
  lemma FirstSampleFires(rule: Rule, x: Sample)
    requires rule.debounceMs == 0
    ensures Firings(rule, [x])[0] <==>
            || (rule.op == Gt && rule.threshold < x.value)
            || (rule.op == Lt && x.value < rule.threshold)
            || (rule.op == Gte && !(x.value < rule.threshold))
            || (rule.op == Lte && !(rule.threshold < x.value))
            || (rule.op == Eq && x.value == rule.threshold)
            || (rule.op == Neq && x.value != rule.threshold)
  {
    assert [x][..0] == [];
    assert Run(rule, []) == Init();
  }

  /** A value that lets the rule fire again. */
  predicate CrossedBack(rule: Rule, v: real) {
    && (rule.op == Gt || rule.op == Gte ==> v < rule.threshold - rule.hysteresis)
    && (rule.op == Lt || rule.op == Lte ==> v > rule.threshold + rule.hysteresis)
    && (rule.op == Eq ==> v != rule.threshold)
    && (rule.op == Neq ==> v == rule.threshold)
  }

  /** Between two firings the value has crossed the band to the other side. */
  lemma CrossesBetween(rule: Rule, ss: seq<Sample>, f: nat, k: nat)
    requires Ordered(ss) && f < k < |ss| && Firings(rule, ss)[f] && Firings(rule, ss)[k]
    ensures exists r :: f < r < k && CrossedBack(rule, ss[r].value)
  {
    hide Firings;
    ResetBetween(rule, ss, f, k);
    var r :| f < r < k && Resets(rule, ss[r].value);
    assert CrossedBack(rule, ss[r].value);
  }

  /** Nor is more than that asked: such a sample, and one more that satisfies the comparison, fires again. */
  lemma FiresAgain(rule: Rule, x: Sample, y: Sample, z: Sample)
    requires rule.debounceMs == 0 && Ordered([x, y, z]) && rule.op != Unknown
    requires Firings(rule, [x])[0] && CrossedBack(rule, y.value) && Firings(rule, [z])[0]
    ensures Firings(rule, [x, y, z])[2]
  {
    var one, two := [x], [x, y];
    assert one[..0] == [] && [z][..0] == [] && two[..1] == one && [x, y, z][..2] == two;
    assert Run(rule, one) == State(false, Some(x.at), true);
    assert Run(rule, two) == Init();
  }

  // ---- the firmware's 32-bit clock ----------------------------------------------------------

  function Run32(rule: Rule, ss: seq<Sample>): State {
    if ss == [] then Init() else
      var s := ss[|ss| - 1];
      Step(Run32(rule, ss[..|ss| - 1]), rule, s.value, s.at % TWO32, true).0
  }

  function Firings32(rule: Rule, ss: seq<Sample>): (os: seq<bool>)
    ensures |os| == |ss|
  {
    if ss == [] then [] else
      var s := ss[|ss| - 1];
      Firings32(rule, ss[..|ss| - 1]) + [Step(Run32(rule, ss[..|ss| - 1]), rule, s.value, s.at % TWO32, true).1]
  }

  /** Samples close enough that a run's length is known before the clock can lap it. */
  predicate Spaced(rule: Rule, ss: seq<Sample>) {
    forall k :: 0 < k < |ss| ==> ss[k].at - ss[k - 1].at < TWO32 - rule.debounceMs
  }

  /** The 32-bit state stands for the unbounded one. */
  predicate Stands(rule: Rule, st32: State, st: State, last: int) {
    && st32.armed == st.armed && st32.fired == st.fired && st32.since.Some? == st.since.Some? && st.fired == !st.armed
    && (st.since.Some? ==> st32.since.value == st.since.value % TWO32 && st.since.value <= last)
    && (st.since.Some? && st.armed ==> last - st.since.value < rule.debounceMs)
  }

  /** Node and host agree on every firing, through any number of wraps of the node's clock. */
  lemma {:induction false} WrapsAreInvisible(rule: Rule, ss: seq<Sample>)
    requires Ordered(ss) && Spaced(rule, ss)
    ensures Firings32(rule, ss) == Firings(rule, ss)
    ensures Stands(rule, Run32(rule, ss), Run(rule, ss), if ss == [] then 0 else ss[|ss| - 1].at)
  {
    hide Step;
    if ss != [] {
      var n := |ss| - 1;
      WrapsAreInvisible(rule, ss[..n]);
      StandsStep(rule, Run32(rule, ss[..n]), Run(rule, ss[..n]), if n == 0 then 0 else ss[n - 1].at, ss[n]);
    }
  }

  lemma StandsStep(rule: Rule, st32: State, st: State, last: int, x: Sample)
    requires Stands(rule, st32, st, last) && last <= x.at
    requires st.since.Some? ==> x.at - last < TWO32 - rule.debounceMs
    ensures Step(st32, rule, x.value, x.at % TWO32, true).1 == Step(st, rule, x.value, x.at, false).1
    ensures Stands(rule, Step(st32, rule, x.value, x.at % TWO32, true).0, Step(st, rule, x.value, x.at, false).0, x.at)
  {
    hide Holds, Resets;
    if st.since.Some? && st.armed {
      HeldAgrees(x.at, st.since.value);
    }
    HeldAgrees(x.at, x.at);
  }

  lemma HeldAgrees(at: nat, since: nat)
    requires since <= at < since + TWO32
    ensures (at % TWO32 - since % TWO32) % TWO32 == at - since
  {
  }
}
