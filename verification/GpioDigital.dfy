/**
 * Digital inputs with debouncing: a level is accepted once every sample over the debounce
 * window has disagreed with the one reported so far.
 */
module GpioDigital {
  import opened Bytes

  const MAX_INSTANCES := 8
  const DEFAULT_DEBOUNCE_MS := 50
  const MAX_DEBOUNCE_MS := 1000
  const CHANNEL_LEVEL := 0
  const CHANNELS := 2
  const COUNTER_MAX := 0xFFFF_FFFF

  datatype Config = Config(pin: nat, debounceMs: nat, activeLow: bool)

  datatype Instance = Instance(pin: nat, debounceMs: nat, activeLow: bool, stable: bool, candidate: bool,
                               sinceUs: int, transitions: nat, lastSampleUs: int)

  /** The level with polarity applied. */
  function Logical(raw: bool, activeLow: bool): bool {
    if activeLow then !raw else raw
  }

  /** A pin just bound reports what it reads, without a window. */
  function Bound(c: Config, raw: bool, now: int): Instance {
    var level := Logical(raw, c.activeLow);
    Instance(c.pin, c.debounceMs, c.activeLow, level, level, now, 0, now)
  }

  /** One sample, and whether it flipped the reported level. */
  function Sample(i: Instance, level: bool, now: int): (Instance, bool) {
    var s := i.(lastSampleUs := now);
    if level == i.stable then (s.(candidate := i.stable, sinceUs := now), false)
    else
      var c := if level != i.candidate then s.(candidate := level, sinceUs := now) else s;
      if Truncated(now - c.sinceUs) >= i.debounceMs
      then (c.(stable := level, transitions := if c.transitions < COUNTER_MAX then c.transitions + 1 else c.transitions), true)
      else (c, false)
  }

  /** Microseconds to milliseconds, rounding toward zero. */
  function Truncated(us: int): int {
    if us >= 0 then us / 1000 else -(-us / 1000)
  }

  // ---- the tables ---------------------------------------------------------------------

  /** A pin's configuration, or the default. */
  function ConfigFor(configs: seq<Config>, pin: nat): (c: Config)
    ensures c.pin == pin
  {
    if configs == [] then Config(pin, DEFAULT_DEBOUNCE_MS, false)
    else if configs[0].pin == pin then configs[0]
    else ConfigFor(configs[1..], pin)
  }

  /** No pin has two rows. */
  predicate OneRowEach(configs: seq<Config>) {
    forall i, j :: 0 <= i < j < |configs| ==> configs[i].pin != configs[j].pin
  }

  lemma {:induction false} RowIsConfig(configs: seq<Config>, k: nat)
    requires k < |configs| && OneRowEach(configs)
    ensures ConfigFor(configs, configs[k].pin) == configs[k]
  {
    if k > 0 {
      RowIsConfig(configs[1..], k - 1);
    }
  }

  lemma {:induction false} NoRowIsDefault(configs: seq<Config>, pin: nat)
    requires forall k :: 0 <= k < |configs| ==> configs[k].pin != pin
    ensures ConfigFor(configs, pin) == Config(pin, 50, false)
  {
    if configs != [] {
      NoRowIsDefault(configs[1..], pin);
    }
  }

  /** The driver's static tables: rows set so far, and the instances bound so far. */
  class Pins {
    var configs: seq<Config>
    var instances: seq<Instance>

    ghost predicate Valid()
      reads this
    {
      && |configs| <= MAX_INSTANCES && |instances| <= MAX_INSTANCES && OneRowEach(configs)
      && forall k :: 0 <= k < |configs| ==> configs[k].debounceMs <= MAX_DEBOUNCE_MS
    }

    constructor ()
      ensures Valid() && configs == [] && instances == []
    {
      configs, instances := [], [];
    }

    /** Sets one pin's window and polarity; every other pin keeps its own. */
    method Configure(pin: nat, debounceMs: nat, activeLow: bool) returns (ok: bool)
      requires Valid()
      modifies this`configs
      ensures Valid()
      ensures ok ==> ConfigFor(configs, pin) == Config(pin, debounceMs, activeLow)
      ensures ok ==> forall p :: p != pin ==> ConfigFor(configs, p) == ConfigFor(old(configs), p)
      ensures !ok ==> configs == old(configs)
      ensures !ok <==> debounceMs > 1000 ||
                       (|old(configs)| == 8 && forall k :: 0 <= k < 8 ==> old(configs)[k].pin != pin)
    {
      if debounceMs > MAX_DEBOUNCE_MS { return false; }
      var row := Config(pin, debounceMs, activeLow);
      for i := 0 to |configs|
        invariant configs == old(configs)
        invariant forall k :: 0 <= k < i ==> configs[k].pin != pin
      {
        if configs[i].pin == pin {
          RowReplaced(configs, i, row);
          configs := configs[i := row];
          RowIsConfig(configs, i);
          return true;
        }
      }
      if |configs| >= MAX_INSTANCES { return false; }
      RowAdded(configs, row);
      configs := configs + [row];
      RowIsConfig(configs, |configs| - 1);
      return true;
    }

    /** Binds a pin; its instance starts at the level the pin reads now. */
    method Init(pin: nat, raw: bool, now: int) returns (slot: Option<nat>)
      requires Valid()
      modifies this`instances
      ensures Valid()
      ensures slot.None? <==> |old(instances)| == MAX_INSTANCES
      ensures slot.None? ==> instances == old(instances)
      ensures slot.Some? ==> slot.value == |old(instances)| && instances == old(instances) + [Bound(ConfigFor(configs, pin), raw, now)]
    {
      if |instances| >= MAX_INSTANCES { return None; }
      var c := ConfigFor(configs, pin);
      instances := instances + [Bound(c, raw, now)];
      return Some(|instances| - 1);
    }

    method TakeSample(slot: nat, raw: bool, now: int)
      requires Valid() && slot < |instances|
      modifies this`instances
      ensures Valid()
      ensures instances == old(instances)[slot := Sample(old(instances)[slot], Logical(raw, old(instances)[slot].activeLow), now).0]
    {
      var i := instances[slot];
      var level := if i.activeLow then !raw else raw;
      i := i.(lastSampleUs := now);
      if level == i.stable {
        instances := instances[slot := i.(candidate := i.stable, sinceUs := now)];
        return;
      }
      if level != i.candidate {
        i := i.(candidate := level, sinceUs := now);
      }
      var held := Truncated(now - i.sinceUs);
      if held >= i.debounceMs {
        i := i.(stable := level);
        if i.transitions < COUNTER_MAX { i := i.(transitions := i.transitions + 1); }
      }
      instances := instances[slot := i];
    }

    /** Reads a channel, sampling the pin at most once at any one time. */
    method Poll(slot: nat, channel: nat, raw: bool, now: int) returns (value: Option<int>)
      requires Valid()
      modifies this`instances
      ensures Valid()
      ensures value.None? <==> slot >= |old(instances)| || channel >= CHANNELS
      ensures value.None? ==> instances == old(instances)
      ensures value.Some? ==>
                var i := Polled(old(instances)[slot], raw, now);
                instances == old(instances)[slot := i] && value.value == Reported(i, channel)
    {
      if slot >= |instances| || channel >= CHANNELS { return None; }
      if instances[slot].lastSampleUs != now {
        TakeSample(slot, raw, now);
      } else {
        assert instances[slot := instances[slot]] == instances;
      }
      var i := instances[slot];
      value := Some(if channel == CHANNEL_LEVEL then (if i.stable then 1 else 0) else AsInt32(i.transitions));
    }
  }

  function Polled(i: Instance, raw: bool, now: int): Instance {
    if i.lastSampleUs == now then i else Sample(i, Logical(raw, i.activeLow), now).0
  }

  /** The counter is reported in a signed 32-bit field. */
  function AsInt32(n: nat): int {
    if n % TWO32 >= 0x8000_0000 then n % TWO32 - TWO32 else n % TWO32
  }

  function Reported(i: Instance, channel: nat): int {
    if channel == CHANNEL_LEVEL then (if i.stable then 1 else 0) else AsInt32(i.transitions)
  }

  lemma RowReplaced(configs: seq<Config>, k: nat, row: Config)
    requires k < |configs| && OneRowEach(configs) && row.pin == configs[k].pin
    ensures OneRowEach(configs[k := row])
    ensures forall p :: p != row.pin ==> ConfigFor(configs[k := row], p) == ConfigFor(configs, p)
  {
    forall p | p != row.pin
      ensures ConfigFor(configs[k := row], p) == ConfigFor(configs, p)
    {
      OtherRowReplaced(configs, k, row, p);
    }
  }

  lemma {:induction false} OtherRowReplaced(configs: seq<Config>, k: nat, row: Config, p: nat)
    requires k < |configs| && row.pin == configs[k].pin && p != row.pin
    ensures ConfigFor(configs[k := row], p) == ConfigFor(configs, p)
  {
    if k > 0 {
      assert configs[k := row][1..] == configs[1..][k - 1 := row];
      OtherRowReplaced(configs[1..], k - 1, row, p);
    }
  }

  lemma RowAdded(configs: seq<Config>, row: Config)
    requires OneRowEach(configs) && forall k :: 0 <= k < |configs| ==> configs[k].pin != row.pin
    ensures OneRowEach(configs + [row])
    ensures forall p :: p != row.pin ==> ConfigFor(configs + [row], p) == ConfigFor(configs, p)
  {
    forall p | p != row.pin
      ensures ConfigFor(configs + [row], p) == ConfigFor(configs, p)
    {
      OtherRowAdded(configs, row, p);
    }
  }

  lemma {:induction false} OtherRowAdded(configs: seq<Config>, row: Config, p: nat)
    requires p != row.pin
    ensures ConfigFor(configs + [row], p) == ConfigFor(configs, p)
  {
    if configs != [] {
      assert (configs + [row])[1..] == configs[1..] + [row];
      OtherRowAdded(configs[1..], row, p);
    } else {
      assert [row][1..] == [];
    }
  }

  // ---- whole histories ------------------------------------------------------------------

  /** What a poll saw. */
  datatype Seen = Seen(level: bool, at: int)

  function Run(i: Instance, ss: seq<Seen>): Instance {
    if ss == [] then i else Sample(Run(i, ss[..|ss| - 1]), ss[|ss| - 1].level, ss[|ss| - 1].at).0
  }

  /** At which samples the reported level flips. */
  function Flips(i: Instance, ss: seq<Seen>): (fs: seq<bool>)
    ensures |fs| == |ss|
  {
    if ss == [] then [] else
      Flips(i, ss[..|ss| - 1]) + [Sample(Run(i, ss[..|ss| - 1]), ss[|ss| - 1].level, ss[|ss| - 1].at).1]
  }

  function Count(fs: seq<bool>): nat {
    if fs == [] then 0 else Count(fs[..|fs| - 1]) + if fs[|fs| - 1] then 1 else 0
  }

  /** The initial level, turned over at each flip. */
  function Level(initial: bool, fs: seq<bool>): bool {
    if fs == [] then initial else if fs[|fs| - 1] then !Level(initial, fs[..|fs| - 1]) else Level(initial, fs[..|fs| - 1])
  }

  lemma {:induction false} LevelIsParity(initial: bool, fs: seq<bool>)
    ensures Level(initial, fs) == (initial != (Count(fs) % 2 == 1))
  {
    if fs != [] {
      LevelIsParity(initial, fs[..|fs| - 1]);
    }
  }

  predicate Ordered(from: int, ss: seq<Seen>) {
    && (forall k :: 0 <= k < |ss| ==> from <= ss[k].at)
    && forall j, k :: 0 <= j <= k < |ss| ==> ss[j].at <= ss[k].at
  }

  /** Since sample `j` nothing flipped and every sample up to `k` disagreed with `level`. */
  predicate Against(ss: seq<Seen>, fs: seq<bool>, level: bool, j: nat, k: nat)
    requires k <= |ss| && k <= |fs|
  {
    (forall m :: j <= m < k ==> !fs[m]) && forall m :: j <= m < k ==> ss[m].level != level
  }

  /** Every sample over at least the debounce window, `k` the last of them, disagreed with the level before `k`. */
  predicate ShouldFlip(initial: bool, debounceMs: nat, ss: seq<Seen>, fs: seq<bool>, k: nat)
    requires k < |ss| && k <= |fs|
  {
    ss[k].level != Level(initial, fs[..k]) &&
    exists j :: 0 <= j <= k && Against(ss, fs, Level(initial, fs[..k]), j, k) && Window(debounceMs, ss, j, k)
  }

  predicate Window(debounceMs: nat, ss: seq<Seen>, j: nat, k: nat)
    requires j <= k < |ss|
  {
    ss[k].at - ss[j].at >= debounceMs * 1000
  }

  predicate Meets(initial: bool, debounceMs: nat, ss: seq<Seen>, fs: seq<bool>) {
    |fs| == |ss| && forall k :: 0 <= k < |ss| ==> (fs[k] <==> ShouldFlip(initial, debounceMs, ss, fs, k))
  }

  /** The window in progress began with the first sample against the level since the last flip. */
  predicate Pending(ss: seq<Seen>, fs: seq<bool>, level: bool, since: int, j: nat)
    requires j <= |ss| == |fs|
  {
    && j < |ss| && ss[j].at == since && Against(ss, fs, level, j, |ss|)
    && forall m :: 0 <= m < j ==> !Against(ss, fs, level, m, |ss|)
  }

  ghost predicate Inv(initial: bool, ss: seq<Seen>, fs: seq<bool>, i: Instance)
    requires |ss| == |fs|
  {
    && i.stable == Level(initial, fs)
    && i.transitions == Min(Count(fs), COUNTER_MAX)
    && (i.candidate == i.stable ==> forall m :: 0 <= m < |ss| ==> !Against(ss, fs, i.stable, m, |ss|))
    && (i.candidate != i.stable ==> exists j :: 0 <= j < |ss| && Pending(ss, fs, i.stable, i.sinceUs, j))
  }

  lemma AgainstSnoc(ss: seq<Seen>, fs: seq<bool>, x: Seen, f: bool, level: bool, j: nat)
    requires |ss| == |fs| && j <= |ss|
    ensures Against(ss + [x], fs + [f], level, j, |ss| + 1) <==> Against(ss, fs, level, j, |ss|) && x.level != level && !f
    ensures Against(ss + [x], fs + [f], level, j, |ss|) <==> Against(ss, fs, level, j, |ss|)
  {
    var ss', fs' := ss + [x], fs + [f];
    assert forall m :: 0 <= m < |ss| ==> ss'[m] == ss[m] && fs'[m] == fs[m];
    assert ss'[|ss|] == x && fs'[|ss|] == f;
  }

  lemma InvStep(initial: bool, ss: seq<Seen>, fs: seq<bool>, i: Instance, x: Seen, from: int)
    requires |ss| == |fs| && Inv(initial, ss, fs, i) && Ordered(from, ss + [x])
    ensures var (i', f) := Sample(i, x.level, x.at);
            && Inv(initial, ss + [x], fs + [f], i') && i'.debounceMs == i.debounceMs
            && (f <==> ShouldFlip(initial, i.debounceMs, ss + [x], fs + [f], |ss|))
  {
    hide Against;
    var n := |ss|;
    var (i', f) := Sample(i, x.level, x.at);
    var ss', fs' := ss + [x], fs + [f];
    assert fs'[..n] == fs;
    forall j | 0 <= j <= n
      ensures Against(ss', fs', i.stable, j, |ss'|) <==> Against(ss, fs, i.stable, j, n) && x.level != i.stable && !f
      ensures Against(ss', fs', i.stable, j, n) <==> Against(ss, fs, i.stable, j, n)
    {
      AgainstSnoc(ss, fs, x, f, i.stable, j);
    }
    NothingAfter(ss, fs, i.stable);
    if x.level != i.stable {
      StepAgainst(ss, fs, i, x, from);
    }
    if f {
      forall j | 0 <= j <= n
        ensures !Against(ss', fs', i'.stable, j, |ss'|)
      {
        AgainstSnoc(ss, fs, x, f, i'.stable, j);
      }
    }
  }

  lemma NothingAfter(ss: seq<Seen>, fs: seq<bool>, level: bool)
    requires |ss| == |fs|
    ensures Against(ss, fs, level, |ss|, |ss|)
  {
  }

  /** The window is measured from the first of the samples that disagree. */
  lemma StepAgainst(ss: seq<Seen>, fs: seq<bool>, i: Instance, x: Seen, from: int)
    requires |ss| == |fs| && Ordered(from, ss + [x]) && x.level != i.stable
    requires i.candidate == i.stable ==> forall m :: 0 <= m < |ss| ==> !Against(ss, fs, i.stable, m, |ss|)
    requires i.candidate != i.stable ==> exists j :: 0 <= j < |ss| && Pending(ss, fs, i.stable, i.sinceUs, j)
    ensures var since := if i.candidate == i.stable then x.at else i.sinceUs;
            var f := Truncated(x.at - since) >= i.debounceMs;
            && (f <==> exists j :: 0 <= j <= |ss| && Against(ss, fs, i.stable, j, |ss|) && Window(i.debounceMs, ss + [x], j, |ss|))
            && (!f ==> exists j :: 0 <= j < |ss| + 1 && Pending(ss + [x], fs + [f], i.stable, since, j))
  {
    hide Against;
    var n := |ss|;
    var ss' := ss + [x];
    var since := if i.candidate == i.stable then x.at else i.sinceUs;
    var f := Truncated(x.at - since) >= i.debounceMs;
    NothingAfter(ss, fs, i.stable);
    forall j | 0 <= j <= n
      ensures Against(ss', fs + [f], i.stable, j, |ss'|) <==> Against(ss, fs, i.stable, j, n) && x.level != i.stable && !f
    {
      AgainstSnoc(ss, fs, x, f, i.stable, j);
    }
    var s := n;
    if i.candidate != i.stable {
      s :| 0 <= s < n && Pending(ss, fs, i.stable, i.sinceUs, s);
    }
    assert ss'[s].at == since && ss'[n] == x;
    assert ss'[s].at <= ss'[n].at;
    TruncatedAtLeast(x.at - since, i.debounceMs);
    forall j | 0 <= j <= n && Against(ss, fs, i.stable, j, n)
      ensures ss'[j].at >= since
    {
      assert j >= s;
      assert ss'[s].at <= ss'[j].at;
    }
    if f {
      assert Against(ss, fs, i.stable, s, n) && Window(i.debounceMs, ss', s, n);
    } else {
      assert Pending(ss', fs + [f], i.stable, since, s);
    }
  }

  lemma TruncatedAtLeast(us: int, ms: nat)
    requires us >= 0
    ensures Truncated(us) >= ms <==> us >= ms * 1000
  {
  }

  /**
   * The reported level flips at exactly the samples that end a window of disagreement, it is
   * the initial level turned over once per flip, and the counter counts the flips.
   */
  lemma {:induction false} DebounceMeets(c: Config, raw: bool, at: int, ss: seq<Seen>)
    requires Ordered(at, ss)
    ensures var i := Bound(c, raw, at);
            && Inv(i.stable, ss, Flips(i, ss), Run(i, ss)) && Run(i, ss).debounceMs == c.debounceMs
            && Meets(i.stable, c.debounceMs, ss, Flips(i, ss))
  {
    hide Inv, Sample, Meets, ShouldFlip;
    var i := Bound(c, raw, at);
    if ss == [] {
      NothingSeen(i, c.debounceMs);
    } else {
      var n := |ss| - 1;
      var before, x := ss[..n], ss[n];
      assert ss == before + [x];
      DebounceMeets(c, raw, at, before);
      InvStep(i.stable, before, Flips(i, before), Run(i, before), x, at);
      MeetsSnoc(i.stable, c.debounceMs, before, x, Flips(i, before), Flips(i, ss)[n]);
    }
  }

  lemma NothingSeen(i: Instance, debounceMs: nat)
    requires i.candidate == i.stable && i.transitions == 0
    ensures Inv(i.stable, [], [], i) && Meets(i.stable, debounceMs, [], [])
  {
  }

  lemma MeetsSnoc(initial: bool, debounceMs: nat, ss: seq<Seen>, x: Seen, fs: seq<bool>, f: bool)
    requires Meets(initial, debounceMs, ss, fs) && (f <==> ShouldFlip(initial, debounceMs, ss + [x], fs + [f], |ss|))
    ensures Meets(initial, debounceMs, ss + [x], fs + [f])
  {
    hide ShouldFlip;
    forall k | 0 <= k < |ss|
      ensures ShouldFlip(initial, debounceMs, ss + [x], fs + [f], k) <==> ShouldFlip(initial, debounceMs, ss, fs, k)
    {
      OnlyThePast(initial, debounceMs, ss + [x], fs + [f], ss, fs, k);
    }
  }

  lemma OnlyThePast(initial: bool, debounceMs: nat, ss: seq<Seen>, fs: seq<bool>, ss': seq<Seen>, fs': seq<bool>, k: nat)
    requires k < |ss| && k < |ss'| && k <= |fs| && k <= |fs'| && ss[..k + 1] == ss'[..k + 1] && fs[..k] == fs'[..k]
    ensures ShouldFlip(initial, debounceMs, ss, fs, k) <==> ShouldFlip(initial, debounceMs, ss', fs', k)
  {
    assert forall j :: 0 <= j <= k ==> ss[..k + 1][j] == ss[j] && ss'[..k + 1][j] == ss'[j];
    assert forall j :: 0 <= j < k ==> fs[..k][j] == fs[j] && fs'[..k][j] == fs'[j];
    var level := Level(initial, fs[..k]);
    forall j | 0 <= j <= k
      ensures Against(ss, fs, level, j, k) <==> Against(ss', fs', level, j, k)
      ensures Window(debounceMs, ss, j, k) <==> Window(debounceMs, ss', j, k)
    {
    }
  }

  /** No other set of flips meets the specification. */
  lemma OnlyTheDebouncerMeets(c: Config, raw: bool, at: int, ss: seq<Seen>, fs: seq<bool>)
    requires Ordered(at, ss) && Meets(Bound(c, raw, at).stable, c.debounceMs, ss, fs)
    ensures fs == Flips(Bound(c, raw, at), ss)
  {
    hide Inv;
    DebounceMeets(c, raw, at, ss);
    var i := Bound(c, raw, at);
    var gs := Flips(i, ss);
    var k := 0;
    while k < |ss|
      invariant k <= |ss| && fs[..k] == gs[..k]
    {
      hide ShouldFlip, Flips;
      OnlyThePast(i.stable, c.debounceMs, ss, fs, ss, gs, k);
      assert fs[k] == gs[k];
      k := k + 1;
    }
    assert fs[..|ss|] == fs && gs[..|ss|] == gs;
  }

  /** Two flips are at least a window apart, and the first is at least a window after binding. */
  lemma FlipsAreApart(c: Config, raw: bool, at: int, ss: seq<Seen>, k: nat)
    requires Ordered(at, ss) && k < |ss| && Flips(Bound(c, raw, at), ss)[k]
    ensures ss[k].at - at >= c.debounceMs * 1000
    ensures forall f :: 0 <= f < k && Flips(Bound(c, raw, at), ss)[f] ==> ss[k].at - ss[f].at >= c.debounceMs * 1000
  {
    hide Inv, Flips;
    DebounceMeets(c, raw, at, ss);
    var i := Bound(c, raw, at);
    var fs := Flips(i, ss);
    assert ShouldFlip(i.stable, c.debounceMs, ss, fs, k);
    var level := Level(i.stable, fs[..k]);
    var j :| 0 <= j <= k && Against(ss, fs, level, j, k) && Window(c.debounceMs, ss, j, k);
    forall f | 0 <= f < k && fs[f]
      ensures ss[k].at - ss[f].at >= c.debounceMs * 1000
    {
      assert f < j;
    }
  }

  /** The flips so far cannot take longer than the time since binding. */
  lemma {:induction false} FlipsFitTheTime(c: Config, raw: bool, at: int, ss: seq<Seen>)
    requires Ordered(at, ss)
    ensures Count(Flips(Bound(c, raw, at), ss)) * (c.debounceMs * 1000) <= if ss == [] then 0 else ss[|ss| - 1].at - at
  {
    if ss != [] {
      CountBefore(c, raw, at, ss, |ss|);
      var fs := Flips(Bound(c, raw, at), ss);
      assert fs[..|ss|] == fs;
    }
  }

  lemma {:induction false} CountBefore(c: Config, raw: bool, at: int, ss: seq<Seen>, n: nat)
    requires Ordered(at, ss) && n <= |ss|
    ensures var fs := Flips(Bound(c, raw, at), ss);
            Count(fs[..n]) * (c.debounceMs * 1000) <= if n == 0 then 0 else ss[n - 1].at - at
    ensures var fs := Flips(Bound(c, raw, at), ss);
            forall k :: n <= k < |ss| && fs[k] ==> (Count(fs[..n]) + 1) * (c.debounceMs * 1000) <= ss[k].at - at
    decreases n
  {
    hide Flips;
    var fs := Flips(Bound(c, raw, at), ss);
    if n == 0 {
      forall k | 0 <= k < |ss| && fs[k]
        ensures (Count(fs[..n]) + 1) * (c.debounceMs * 1000) <= ss[k].at - at
      {
        FlipsAreApart(c, raw, at, ss, k);
      }
    } else {
      CountBefore(c, raw, at, ss, n - 1);
      assert fs[..n][..n - 1] == fs[..n - 1];
      var before := Count(fs[..n - 1]);
      assert Count(fs[..n]) == before + if fs[n - 1] then 1 else 0;
      forall k | n <= k < |ss| && fs[k]
        ensures (Count(fs[..n]) + 1) * (c.debounceMs * 1000) <= ss[k].at - at
      {
        if fs[n - 1] {
          FlipsAreApart(c, raw, at, ss, k);
          OneMore(before + 1, c.debounceMs * 1000);
        }
      }
    }
  }

  lemma OneMore(n: nat, d: nat)
    ensures (n + 1) * d == n * d + d
  {
  }

  /** Below saturation the reported level is the initial one, turned over by an odd count. */
  lemma CounterTellsLevel(c: Config, raw: bool, at: int, ss: seq<Seen>)
    requires Ordered(at, ss)
    ensures var i, j := Bound(c, raw, at), Run(Bound(c, raw, at), ss);
            && (j.transitions < COUNTER_MAX ==> j.stable == (i.stable != (j.transitions % 2 == 1)))
            && j.transitions * (c.debounceMs * 1000) <= if ss == [] then 0 else ss[|ss| - 1].at - at
  {
    DebounceMeets(c, raw, at, ss);
    var i := Bound(c, raw, at);
    LevelIsParity(i.stable, Flips(i, ss));
    FlipsFitTheTime(c, raw, at, ss);
    FewerFlips(Run(i, ss).transitions, Count(Flips(i, ss)), c.debounceMs * 1000);
  }

  lemma FewerFlips(m: nat, n: nat, d: nat)
    requires m <= n
    ensures m * d <= n * d
  {
  }

  // ---- from the pin itself ----------------------------------------------------------------

  /** A poll of either channel: the pin as it reads, and the time. */
  datatype Look = Look(raw: bool, at: int)

  function Looked(i: Instance, looks: seq<Look>): Instance {
    if looks == [] then i else Polled(Looked(i, looks[..|looks| - 1]), looks[|looks| - 1].raw, looks[|looks| - 1].at)
  }

  /** The first poll at each moment, as a level: the pin's, turned over if it is active low. */
  function FirstLooks(from: int, looks: seq<Look>, activeLow: bool): seq<Seen> {
    if looks == [] then [] else
      var n := |looks| - 1;
      var before := FirstLooks(from, looks[..n], activeLow);
      if looks[n].at == (if n == 0 then from else looks[n - 1].at) then before
      else before + [Seen(looks[n].raw != activeLow, looks[n].at)]
  }

  /** Time does not go back, from binding on. */
  predicate Onward(from: int, looks: seq<Look>) {
    looks == [] ||
    (Onward(from, looks[..|looks| - 1]) && (if |looks| == 1 then from else looks[|looks| - 2].at) <= looks[|looks| - 1].at)
  }

  lemma {:induction false} LooksAreSamples(i: Instance, looks: seq<Look>)
    ensures var j := Looked(i, looks);
            && j == Run(i, FirstLooks(i.lastSampleUs, looks, i.activeLow))
            && j.activeLow == i.activeLow && j.lastSampleUs == if looks == [] then i.lastSampleUs else looks[|looks| - 1].at
    decreases |looks|
  {
    if looks != [] {
      hide Run, Sample;
      var n := |looks| - 1;
      LooksAreSamples(i, looks[..n]);
      RunSnoc(i, FirstLooks(i.lastSampleUs, looks[..n], i.activeLow), Seen(looks[n].raw != i.activeLow, looks[n].at));
      SampleKeeps(Looked(i, looks[..n]), looks[n].raw != i.activeLow, looks[n].at);
    }
  }

  lemma RunSnoc(i: Instance, ss: seq<Seen>, x: Seen)
    ensures Run(i, ss + [x]) == Sample(Run(i, ss), x.level, x.at).0
  {
    hide Sample;
    assert (ss + [x])[..|ss|] == ss;
  }

  lemma SampleKeeps(i: Instance, level: bool, now: int)
    ensures Sample(i, level, now).0.activeLow == i.activeLow && Sample(i, level, now).0.lastSampleUs == now
  {
    hide Truncated;
  }

  lemma {:induction false} FirstLooksOrdered(from: int, looks: seq<Look>, activeLow: bool)
    requires Onward(from, looks)
    ensures var ss := FirstLooks(from, looks, activeLow);
            && Ordered(from, ss) && from <= (if looks == [] then from else looks[|looks| - 1].at)
            && forall k :: 0 <= k < |ss| ==> ss[k].at <= if looks == [] then from else looks[|looks| - 1].at
    decreases |looks|
  {
    if looks != [] {
      FirstLooksOrdered(from, looks[..|looks| - 1], activeLow);
    }
  }

  /**
   * What a node reports of a pin, from the pin alone: the level it read when bound, turned over
   * if it is active low, and turned over once more at each flip the debouncer must make; and
   * how often that was.
   */
  lemma PinReports(c: Config, raw: bool, at: int, looks: seq<Look>)
    requires Onward(at, looks)
    ensures var i := Bound(c, raw, at);
            var ss := FirstLooks(at, looks, c.activeLow);
            var fs := Flips(i, ss);
            && Meets(raw != c.activeLow, c.debounceMs, ss, fs)
            && Reported(Looked(i, looks), 0) == (if Level(raw != c.activeLow, fs) then 1 else 0)
            && Reported(Looked(i, looks), 1) == AsInt32(Min(Count(fs), 0xFFFF_FFFF))
  {
    hide Meets, ShouldFlip;
    var i := Bound(c, raw, at);
    LooksAreSamples(i, looks);
    FirstLooksOrdered(at, looks, c.activeLow);
    DebounceMeets(c, raw, at, FirstLooks(at, looks, c.activeLow));
  }

  /** Truncation is toward zero. */
  lemma TruncatedIs(us: int)
    ensures var ms := Truncated(us); -1000 < us - 1000 * ms < 1000 && (us >= 0 ==> ms >= 0 && us >= 1000 * ms) && (us <= 0 ==> ms <= 0 && us <= 1000 * ms)
  {
  }

  /** The reported count is a signed 32-bit number, the same up to a multiple of 2^32. */
  lemma AsInt32Is(n: nat)
    ensures -0x8000_0000 <= AsInt32(n) < 0x8000_0000 && (AsInt32(n) - n) % TWO32 == 0
  {
  }
}
