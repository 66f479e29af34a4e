/**
 * What the bridge does with what it hears, its ports reduced to verdicts: serial bytes in,
 * validated frames to the radio, validated radio frames back to the serial host.
 */
module Bridge {
  import opened Bytes
  import opened Frame
  import Crc16
  import Slip

  const RX_SERIAL_BUF := 256
  const TX_SERIAL_BUF := 514
  const STAT_SIZE := 82

  datatype Verdict = Accept | RejectLen | RejectMagic | RejectCrc

  /** The verdict on a frame; a type nobody knows is no reason to refuse it. */
  function Validate(f: seq<byte>): Verdict {
    match Parse(f)
    case Parsed(_) => Accept
    case UnknownType(_) => Accept
    case BadMagic => RejectMagic
    case BadCrc => RejectCrc
    case TooShort => RejectLen
    case TooLong => RejectLen
  }

  /** A diagnostic request for the bridge itself. */
  predicate IsStatRequest(f: seq<byte>) {
    var h := DecodeHeader(f);
    h.Some? && h.value.dstId == BRIDGE_ID && h.value.kind == BRIDGE_STAT_REQ
  }

  datatype Stats = Stats(serialIn: nat, serialOut: nat, radioIn: nat, radioOut: nat,
                         rejectedCrc: nat, rejectedMagic: nat, rejectedLen: nat, rejectedDuty: nat,
                         radioErrors: nat, serialErrors: nat, localRequests: nat)

  const NO_STATS := Stats(0, 0, 0, 0, 0, 0, 0, 0, 0, 0, 0)

  type StatPayload = s: seq<byte> | |s| == STAT_SIZE witness seq(STAT_SIZE, _ => 0)

  /** The callbacks: absent, or the answer each one gives to its n-th call. */
  datatype Env = Env(toRadio: Option<nat -> bool>, toHost: Option<nat -> bool>, allowTx: Option<nat -> bool>,
                     statPayload: Stats -> StatPayload)

  predicate Answers(callback: Option<nat -> bool>, n: nat) {
    callback.Some? && callback.value(n)
  }

  /** The bridge's state: framing, everything handed to each callback so far, and the counters. */
  datatype State = State(framing: Slip.Framing, radio: seq<seq<byte>>, host: seq<seq<byte>>, asked: nat, stats: Stats)

  const FRESH := State(Slip.Framing(Slip.Idle, []), [], [], 0, NO_STATS)

  function CountRejection(s: Stats, v: Verdict): Stats {
    match v
    case RejectLen => s.(rejectedLen := s.rejectedLen + 1)
    case RejectMagic => s.(rejectedMagic := s.rejectedMagic + 1)
    case RejectCrc => s.(rejectedCrc := s.rejectedCrc + 1)
    case Accept => s
  }

  /** Offers the host a frame in its serial form. */
  function EmitToHost(st: State, env: Env, f: seq<byte>): State {
    var failed := st.(stats := st.stats.(serialErrors := st.stats.serialErrors + 1));
    if 2 * |f| + 2 > TX_SERIAL_BUF || env.toHost.None? then failed
    else if env.toHost.value(|st.host|) then
      st.(host := st.host + [Slip.Encode(f)], stats := st.stats.(serialOut := st.stats.serialOut + 1))
    else
      failed.(host := st.host + [Slip.Encode(f)])
  }

  function AnswerStatRequest(st: State, env: Env, request: Header): State {
    var st' := st.(stats := st.stats.(localRequests := st.stats.localRequests + 1));
    var reply := Header(BRIDGE_STAT_RSP, BRIDGE_ID, request.srcId, request.seqNo, 0);
    EmitToHost(st', env, Wire(reply, env.statPayload(st'.stats)))
  }

  /** A frame the serial decoder has finished: answer it, veto it or transmit it. */
  function ForwardToRadio(st: State, env: Env, f: seq<byte>): State {
    var st1 := st.(stats := st.stats.(serialIn := st.stats.serialIn + 1));
    var verdict := Validate(f);
    if verdict != Accept then st1.(stats := CountRejection(st1.stats, verdict))
    else if IsStatRequest(f) then AnswerStatRequest(st1, env, DecodeHeader(f).value)
    else
      var st2 := if env.allowTx.Some? then st1.(asked := st1.asked + 1) else st1;
      if env.allowTx.Some? && !env.allowTx.value(st1.asked) then
        st2.(stats := st2.stats.(rejectedDuty := st2.stats.rejectedDuty + 1))
      else if env.toRadio.None? then
        st2.(stats := st2.stats.(radioErrors := st2.stats.radioErrors + 1))
      else if env.toRadio.value(|st2.radio|) then
        st2.(radio := st2.radio + [f], stats := st2.stats.(radioOut := st2.stats.radioOut + 1))
      else
        st2.(radio := st2.radio + [f], stats := st2.stats.(radioErrors := st2.stats.radioErrors + 1))
  }

  function OnRadioFrame(st: State, env: Env, f: seq<byte>): State {
    var st1 := st.(stats := st.stats.(radioIn := st.stats.radioIn + 1));
    var verdict := Validate(f);
    if verdict != Accept then st1.(stats := CountRejection(st1.stats, verdict))
    else EmitToHost(st1, env, f)
  }

  /** Bytes off the serial port, frames dispatched as they complete. */
  function FeedSerial(st: State, env: Env, bytes: seq<byte>): State
    decreases |bytes|
  {
    if bytes == [] then st else
      var (framing, e) := Slip.Feed(st.framing, RX_SERIAL_BUF, bytes[0]);
      var st1 := st.(framing := framing);
      var st2 := if e.FrameReady? then ForwardToRadio(st1, env, framing.partial) else st1;
      FeedSerial(st2, env, bytes[1..])
  }

  // ---- the bridge as it runs --------------------------------------------------------

  class Relay {
    const env: Env
    const decoder: Slip.Decoder
    const serialTx: array<byte>
    var stats: Stats
    var asked: nat
    var radio: seq<seq<byte>>
    var host: seq<seq<byte>>

    ghost predicate Valid()
      reads this, decoder, decoder.buf
    {
      decoder.Valid() && decoder.buf.Length == RX_SERIAL_BUF && serialTx.Length == TX_SERIAL_BUF && decoder.buf != serialTx
    }

    ghost function View(): State
      reads this, decoder, decoder.buf
      requires Valid()
    {
      State(decoder.View(), radio, host, asked, stats)
    }

    constructor (env: Env)
      ensures Valid() && View() == FRESH && this.env == env
      ensures fresh(decoder) && fresh(decoder.buf) && fresh(serialTx)
    {
      this.env := env;
      var rx := new byte[RX_SERIAL_BUF](_ => 0);
      decoder := new Slip.Decoder(rx);
      serialTx := new byte[TX_SERIAL_BUF](_ => 0);
      stats, asked, radio, host := NO_STATS, 0, [], [];
    }

    method Emit(f: seq<byte>)
      requires Valid()
      modifies this, serialTx
      ensures Valid() && View() == EmitToHost(old(View()), env, f)
    {
      hide Slip.Encode;
      var n := Slip.EncodeInto(f, serialTx);
      if n == 0 || env.toHost.None? {
        stats := stats.(serialErrors := stats.serialErrors + 1);
        return;
      }
      var sent := env.toHost.value(|host|);
      host := host + [serialTx[..n]];
      if sent {
        stats := stats.(serialOut := stats.serialOut + 1);
      } else {
        stats := stats.(serialErrors := stats.serialErrors + 1);
      }
    }

    method AnswerRequest(request: Header)
      requires Valid()
      modifies this, serialTx
      ensures Valid() && View() == AnswerStatRequest(old(View()), env, request)
    {
      hide Slip.Encode, EmitToHost, Wire;
      stats := stats.(localRequests := stats.localRequests + 1);
      var payload := env.statPayload(stats);
      var header := Header(BRIDGE_STAT_RSP, BRIDGE_ID, request.srcId, request.seqNo, 0);
      var frame := new byte[HEADER_SIZE + STAT_SIZE + CRC_SIZE](_ => 0);
      var n := FrameBuild(header, payload, frame);
      Emit(frame[..n]);
    }

    method Forward(f: seq<byte>)
      requires Valid()
      modifies this, serialTx
      ensures Valid() && View() == ForwardToRadio(old(View()), env, f)
    {
      hide Validate, IsStatRequest, AnswerStatRequest, DecodeHeader;
      stats := stats.(serialIn := stats.serialIn + 1);
      var verdict := Validate(f);
      if verdict != Accept {
        stats := CountRejection(stats, verdict);
        return;
      }
      if IsStatRequest(f) {
        StatRequestHasHeader(f);
        AnswerRequest(DecodeHeader(f).value);
        return;
      }
      if env.allowTx.Some? {
        var allowed := env.allowTx.value(asked);
        asked := asked + 1;
        if !allowed {
          stats := stats.(rejectedDuty := stats.rejectedDuty + 1);
          return;
        }
      }
      if env.toRadio.None? {
        stats := stats.(radioErrors := stats.radioErrors + 1);
        return;
      }
      var sent := env.toRadio.value(|radio|);
      radio := radio + [f];
      if sent {
        stats := stats.(radioOut := stats.radioOut + 1);
      } else {
        stats := stats.(radioErrors := stats.radioErrors + 1);
      }
    }

    method Feed(bytes: seq<byte>)
      requires Valid()
      modifies this, serialTx, decoder, decoder.buf
      ensures Valid() && View() == FeedSerial(old(View()), env, bytes)
    {
      hide Slip.Feed, ForwardToRadio;
      assert bytes[0..] == bytes;
      for i := 0 to |bytes|
        invariant Valid()
        invariant FeedSerial(View(), env, bytes[i..]) == FeedSerial(old(View()), env, bytes)
      {
        assert bytes[i..][1..] == bytes[i + 1..];
        var e := decoder.FeedByte(bytes[i]);
        if e == Slip.FrameReady {
          Forward(decoder.buf[..decoder.len]);
        }
      }
      assert bytes[|bytes|..] == [];
    }

    method RadioFrame(f: seq<byte>)
      requires Valid()
      modifies this, serialTx
      ensures Valid() && View() == OnRadioFrame(old(View()), env, f)
    {
      hide Validate, EmitToHost;
      stats := stats.(radioIn := stats.radioIn + 1);
      var verdict := Validate(f);
      if verdict != Accept {
        stats := CountRejection(stats, verdict);
        return;
      }
      Emit(f);
    }
  }

  lemma StatRequestHasHeader(f: seq<byte>)
    requires IsStatRequest(f)
    ensures DecodeHeader(f).Some?
  {
  }

  // ---- what the bridge guarantees ---------------------------------------------------

  predicate AllAccepted(fs: seq<seq<byte>>) {
    forall f :: f in fs ==> Validate(f) == Accept
  }

  /** Every frame that came in, whatever became of it. */
  function Entered(s: Stats): nat {
    s.serialIn + s.radioIn
  }

  /** Every way a frame can leave the bridge's hands. */
  function AccountedFor(s: Stats): nat {
    s.rejectedCrc + s.rejectedMagic + s.rejectedLen + s.rejectedDuty + s.radioErrors + s.radioOut + s.serialOut + s.serialErrors
  }

  /** What holds in every reachable state. */
  predicate Inv(st: State) {
    AllAccepted(st.radio) && Entered(st.stats) == AccountedFor(st.stats)
  }

  lemma ForwardKeepsInv(st: State, env: Env, f: seq<byte>)
    requires Inv(st)
    ensures Inv(ForwardToRadio(st, env, f))
  {
    hide Validate, DecodeHeader, Slip.Encode, Wire;
  }

  lemma RadioFrameKeepsInv(st: State, env: Env, f: seq<byte>)
    requires Inv(st)
    ensures Inv(OnRadioFrame(st, env, f))
  {
    hide Validate, Slip.Encode;
  }

  /**
   * On any byte stream, whatever its framing damage and whatever the callbacks answer: only
   * validated frames reach the radio, and each frame in is counted under exactly one outcome.
   */
  lemma {:induction false} FeedKeepsInv(st: State, env: Env, bytes: seq<byte>)
    requires Inv(st)
    ensures Inv(FeedSerial(st, env, bytes))
    decreases |bytes|
  {
    hide Slip.Feed, ForwardToRadio, Inv;
    if bytes != [] {
      var (framing, e) := Slip.Feed(st.framing, RX_SERIAL_BUF, bytes[0]);
      var st1 := st.(framing := framing);
      assert Inv(st1) by { FramingIrrelevant(st, framing); }
      if e.FrameReady? {
        ForwardKeepsInv(st1, env, framing.partial);
        FeedKeepsInv(ForwardToRadio(st1, env, framing.partial), env, bytes[1..]);
      } else {
        FeedKeepsInv(st1, env, bytes[1..]);
      }
    }
  }

  lemma FramingIrrelevant(st: State, framing: Slip.Framing)
    requires Inv(st)
    ensures Inv(st.(framing := framing))
  {
  }

  /** Chunking is invisible to the bridge. */
  lemma {:induction false} FeedConcat(st: State, env: Env, s: seq<byte>, t: seq<byte>)
    ensures FeedSerial(st, env, s + t) == FeedSerial(FeedSerial(st, env, s), env, t)
    decreases |s|
  {
    hide Slip.Feed, ForwardToRadio;
    if s == [] {
      assert s + t == t;
    } else {
      assert (s + t)[1..] == s[1..] + t;
      var (framing, e) := Slip.Feed(st.framing, RX_SERIAL_BUF, s[0]);
      var st1 := st.(framing := framing);
      FeedConcat(if e.FrameReady? then ForwardToRadio(st1, env, framing.partial) else st1, env, s[1..], t);
    }
  }

  function FeedChunks(st: State, env: Env, chunks: seq<seq<byte>>): State
    decreases |chunks|
  {
    if chunks == [] then st else FeedChunks(FeedSerial(st, env, chunks[0]), env, chunks[1..])
  }

  function Flatten(chunks: seq<seq<byte>>): seq<byte> {
    if chunks == [] then [] else chunks[0] + Flatten(chunks[1..])
  }

  lemma {:induction false} ChunksAreInvisible(st: State, env: Env, chunks: seq<seq<byte>>)
    ensures FeedChunks(st, env, chunks) == FeedSerial(st, env, Flatten(chunks))
    decreases |chunks|
  {
    hide Slip.Feed, ForwardToRadio;
    if chunks != [] {
      FeedConcat(st, env, chunks[0], Flatten(chunks[1..]));
      ChunksAreInvisible(FeedSerial(st, env, chunks[0]), env, chunks[1..]);
    }
  }

  // ---- the verdicts, in terms of what was built -----------------------------------------

  /** Only frames that someone built are accepted, and every other is refused for its first fault. */
  lemma VerdictIs(f: seq<byte>)
    ensures Validate(f) == Accept <==> exists h, p :: |p| <= 220 && f == Wire(h, p)
    ensures Validate(f) == RejectLen <==> |f| < 10 || |f| > 230
    ensures Validate(f) == RejectMagic <==> 10 <= |f| <= 230 && f[0] != 0x4B
  {
    hide Wire, Crc16.Crc, Crc16.Word16, DecodeHeader;
    IntactIffBuilt(f);
    if 10 <= |f| <= 230 && f[0] == 0x4B {
      HeaderDecodes(f[..|f| - 2]);
    }
  }

  lemma HeaderDecodes(f: seq<byte>)
    requires |f| >= HEADER_SIZE && f[0] == MAGIC
    ensures DecodeHeader(f).Some?
  {
  }

  /** A diagnostic request is a frame of type 0x50 to address 0. */
  lemma StatRequestIs(h: Header, p: seq<byte>)
    ensures IsStatRequest(Wire(h, p)) <==> h.kind == 0x50 && h.dstId == 0
  {
    hide Crc16.Crc, Crc16.Hi, Crc16.Lo, Crc16.Word16;
    Halves(h.srcId);
    Halves(h.dstId);
  }

  // ---- the account of a stream, whatever the callbacks answer ---------------------------

  /** What becomes of a list of frames. */
  function Forwarded(st: State, env: Env, fs: seq<seq<byte>>): State
    decreases |fs|
  {
    if fs == [] then st else Forwarded(ForwardToRadio(st, env, fs[0]), env, fs[1..])
  }

  /** The frames a bridge passes on: valid ones not addressed to the bridge itself. */
  function Relayed(fs: seq<seq<byte>>): seq<seq<byte>> {
    if fs == [] then []
    else if Validate(fs[0]) == Accept && !IsStatRequest(fs[0]) then [fs[0]] + Relayed(fs[1..])
    else Relayed(fs[1..])
  }

  /** Those the duty-cycle guard allows, when frame `i` is its question number `asked + i`. */
  function Permitted(env: Env, asked: nat, fs: seq<seq<byte>>): seq<seq<byte>>
    decreases |fs|
  {
    if fs == [] then []
    else if env.allowTx.Some? && !env.allowTx.value(asked) then Permitted(env, asked + 1, fs[1..])
    else [fs[0]] + Permitted(env, asked + 1, fs[1..])
  }

  /** How many of a callback's answers from number `from` up to `to` are yes. */
  function Yes(callback: Option<nat -> bool>, from: nat, to: nat): nat
    decreases to - from
  {
    if from >= to then 0 else (if Answers(callback, from) then 1 else 0) + Yes(callback, from + 1, to)
  }

  function CountVerdict(fs: seq<seq<byte>>, v: Verdict): nat {
    if fs == [] then 0 else (if Validate(fs[0]) == v then 1 else 0) + CountVerdict(fs[1..], v)
  }

  function CountRequests(fs: seq<seq<byte>>): nat {
    if fs == [] then 0 else
      (if Validate(fs[0]) == Accept && IsStatRequest(fs[0]) then 1 else 0) + CountRequests(fs[1..])
  }

  /** Radio side: the allowed frames in order, each veto counted once and each question asked once. */
  predicate RadioAccount(st: State, st': State, env: Env, fs: seq<seq<byte>>) {
    var air := Relayed(fs);
    var out := Permitted(env, st.asked, air);
    && st'.asked == st.asked + (if env.allowTx.Some? then |air| else 0)
    && st'.stats.rejectedDuty == st.stats.rejectedDuty + |air| - |out|
    && st'.radio == st.radio + (if env.toRadio.Some? then out else [])
    && st'.stats.radioOut == st.stats.radioOut + Yes(env.toRadio, |st.radio|, |st'.radio|)
    && st'.stats.radioErrors == st.stats.radioErrors + |out| - Yes(env.toRadio, |st.radio|, |st'.radio|)
  }

  /** Serial side: refusals by cause, and one encoded reply for each diagnostic request. */
  predicate SerialAccount(st: State, st': State, env: Env, fs: seq<seq<byte>>) {
    && st'.stats.serialIn == st.stats.serialIn + |fs| && st'.stats.radioIn == st.stats.radioIn
    && st'.stats.rejectedLen == st.stats.rejectedLen + CountVerdict(fs, RejectLen)
    && st'.stats.rejectedMagic == st.stats.rejectedMagic + CountVerdict(fs, RejectMagic)
    && st'.stats.rejectedCrc == st.stats.rejectedCrc + CountVerdict(fs, RejectCrc)
    && st'.stats.localRequests == st.stats.localRequests + CountRequests(fs)
    && st.host <= st'.host && |st'.host| == |st.host| + (if env.toHost.Some? then CountRequests(fs) else 0)
    && st'.stats.serialOut == st.stats.serialOut + Yes(env.toHost, |st.host|, |st'.host|)
    && st'.stats.serialErrors == st.stats.serialErrors + CountRequests(fs) - Yes(env.toHost, |st.host|, |st'.host|)
  }

  lemma {:induction false} YesSplits(callback: Option<nat -> bool>, from: nat, mid: nat, to: nat)
    requires from <= mid <= to
    ensures Yes(callback, from, to) == Yes(callback, from, mid) + Yes(callback, mid, to)
    decreases mid - from
  {
    if from < mid {
      YesSplits(callback, from + 1, mid, to);
    }
  }

  lemma YesOne(callback: Option<nat -> bool>, n: nat)
    ensures Yes(callback, n, n) == 0 && Yes(callback, n, n + 1) == if Answers(callback, n) then 1 else 0
  {
  }

  lemma RelayedOnly(f: seq<byte>)
    ensures Relayed([f]) == if Validate(f) == Accept && !IsStatRequest(f) then [f] else []
  {
    hide Validate, IsStatRequest;
    assert [f][1..] == [];
  }

  lemma PermittedOnly(env: Env, asked: nat, f: seq<byte>)
    ensures Permitted(env, asked, []) == []
    ensures Permitted(env, asked, [f]) == if env.allowTx.Some? && !env.allowTx.value(asked) then [] else [f]
  {
    assert [f][1..] == [];
  }

  lemma {:induction false} PermittedConcat(env: Env, asked: nat, s: seq<seq<byte>>, t: seq<seq<byte>>)
    ensures Permitted(env, asked, s + t) == Permitted(env, asked, s) + Permitted(env, asked + |s|, t)
    decreases |s|
  {
    if s == [] {
      assert s + t == t;
    } else {
      assert (s + t)[1..] == s[1..] + t;
      PermittedConcat(env, asked + 1, s[1..], t);
    }
  }

  lemma {:induction false} UnguardedPermits(env: Env, asked: nat, asked': nat, fs: seq<seq<byte>>)
    requires env.allowTx.None?
    ensures Permitted(env, asked, fs) == fs == Permitted(env, asked', fs)
    decreases |fs|
  {
    if fs != [] {
      UnguardedPermits(env, asked + 1, asked' + 1, fs[1..]);
    }
  }

  lemma OneOnRadio(st: State, env: Env, f: seq<byte>)
    ensures RadioAccount(st, ForwardToRadio(st, env, f), env, [f])
    ensures ForwardToRadio(st, env, f).framing == st.framing
  {
    hide Validate, DecodeHeader, IsStatRequest, Slip.Encode, Wire;
    RelayedOnly(f);
    PermittedOnly(env, st.asked, f);
    YesOne(env.toRadio, |st.radio|);
    assert st.radio + [] == st.radio;
  }

  lemma OneOnSerial(st: State, env: Env, f: seq<byte>)
    ensures SerialAccount(st, ForwardToRadio(st, env, f), env, [f])
  {
    hide Validate, DecodeHeader, IsStatRequest, Slip.Encode, Wire;
    assert [f][1..] == [];
    assert CountRequests([f]) == if Validate(f) == Accept && IsStatRequest(f) then 1 else 0;
    assert forall v :: CountVerdict([f], v) == if Validate(f) == v then 1 else 0;
    YesOne(env.toHost, |st.host|);
    hide CountRequests, CountVerdict, Yes;
    if Validate(f) == Accept && IsStatRequest(f) {
      StatRequestHasHeader(f);
      EmitCounts(st.(stats := st.stats.(serialIn := st.stats.serialIn + 1)), env, DecodeHeader(f).value);
    }
  }

  lemma EmitCounts(st: State, env: Env, request: Header)
    ensures var st' := AnswerStatRequest(st, env, request);
            var yes := if Answers(env.toHost, |st.host|) then 1 else 0;
            && st.host <= st'.host && |st'.host| == |st.host| + (if env.toHost.Some? then 1 else 0)
            && st'.stats == st.stats.(localRequests := st.stats.localRequests + 1, serialOut := st.stats.serialOut + yes,
                                      serialErrors := st.stats.serialErrors + 1 - yes)
  {
    hide Slip.Encode, Wire;
  }

  lemma {:induction false} ForwardedRadio(st: State, env: Env, fs: seq<seq<byte>>)
    ensures RadioAccount(st, Forwarded(st, env, fs), env, fs)
    decreases |fs|
  {
    hide Validate, IsStatRequest, ForwardToRadio, RadioAccount, Permitted, Yes, Relayed;
    if fs == [] {
      NoRadio(st, env);
    } else {
      OneOnRadio(st, env, fs[0]);
      ForwardedRadio(ForwardToRadio(st, env, fs[0]), env, fs[1..]);
      RadioBoth(st, ForwardToRadio(st, env, fs[0]), Forwarded(st, env, fs), env, [fs[0]], fs[1..]);
      assert [fs[0]] + fs[1..] == fs;
    }
  }

  lemma NoRadio(st: State, env: Env)
    ensures RadioAccount(st, st, env, [])
  {
  }

  lemma RadioBoth(st: State, mid: State, st': State, env: Env, s: seq<seq<byte>>, t: seq<seq<byte>>)
    requires RadioAccount(st, mid, env, s) && RadioAccount(mid, st', env, t)
    ensures RadioAccount(st, st', env, s + t)
  {
    hide Permitted, Yes, Relayed;
    RelayedConcat(s, t);
    PermittedConcat(env, st.asked, Relayed(s), Relayed(t));
    if env.allowTx.None? {
      UnguardedPermits(env, st.asked + |Relayed(s)|, mid.asked, Relayed(t));
    }
    YesSplits(env.toRadio, |st.radio|, |mid.radio|, |st'.radio|);
  }

  lemma {:induction false} ForwardedSerial(st: State, env: Env, fs: seq<seq<byte>>)
    ensures SerialAccount(st, Forwarded(st, env, fs), env, fs)
    decreases |fs|
  {
    hide Validate, IsStatRequest, ForwardToRadio, Yes;
    if fs != [] {
      OneOnSerial(st, env, fs[0]);
      var mid, st' := ForwardToRadio(st, env, fs[0]), Forwarded(st, env, fs);
      ForwardedSerial(mid, env, fs[1..]);
      assert [fs[0]][1..] == [];
      YesSplits(env.toHost, |st.host|, |mid.host|, |st'.host|);
    } else {
      YesOne(env.toHost, |st.host|);
    }
  }

  lemma {:induction false} FeedIsForwarded(st: State, env: Env, bytes: seq<byte>)
    ensures var (framing, fs) := Slip.Run(st.framing, RX_SERIAL_BUF, bytes);
            FeedSerial(st, env, bytes) == Forwarded(st, env, fs).(framing := framing)
    decreases |bytes|
  {
    hide Slip.Feed, ForwardToRadio;
    if bytes != [] {
      var (framing, e) := Slip.Feed(st.framing, RX_SERIAL_BUF, bytes[0]);
      var st1 := st.(framing := framing);
      var (last, rest) := Slip.Run(framing, RX_SERIAL_BUF, bytes[1..]);
      if e.FrameReady? {
        OneOnRadio(st1, env, framing.partial);
        FeedIsForwarded(ForwardToRadio(st1, env, framing.partial), env, bytes[1..]);
        ForwardIgnoresFraming(st, framing, env, framing.partial);
        ForwardedIgnoresFraming(ForwardToRadio(st, env, framing.partial), framing, env, rest);
        assert ([framing.partial] + rest)[1..] == rest;
      } else {
        FeedIsForwarded(st1, env, bytes[1..]);
        ForwardedIgnoresFraming(st, framing, env, rest);
      }
    }
  }

  lemma ForwardIgnoresFraming(st: State, framing: Slip.Framing, env: Env, f: seq<byte>)
    ensures ForwardToRadio(st.(framing := framing), env, f) == ForwardToRadio(st, env, f).(framing := framing)
  {
    hide Validate, DecodeHeader, IsStatRequest, Slip.Encode, Wire;
    if IsStatRequest(f) {
      StatRequestHasHeader(f);
    }
  }

  lemma {:induction false} ForwardedIgnoresFraming(st: State, framing: Slip.Framing, env: Env, fs: seq<seq<byte>>)
    ensures Forwarded(st.(framing := framing), env, fs) == Forwarded(st, env, fs).(framing := framing)
    decreases |fs|
  {
    hide ForwardToRadio;
    if fs != [] {
      ForwardIgnoresFraming(st, framing, env, fs[0]);
      ForwardedIgnoresFraming(ForwardToRadio(st, env, fs[0]), framing, env, fs[1..]);
    }
  }

  /**
   * Whatever bytes come in and whatever the callbacks answer: the radio is handed exactly the
   * relayed frames the duty-cycle guard allowed, in order, one question and one veto counted for
   * each; and everything else is refused by its cause or answered.
   */
  lemma StreamAccount(st: State, env: Env, bytes: seq<byte>)
    ensures var fs := Slip.Run(st.framing, 256, bytes).1;
            var st' := FeedSerial(st, env, bytes);
            RadioAccount(st, st', env, fs) && SerialAccount(st, st', env, fs)
  {
    hide Relayed, Permitted, Yes, CountVerdict, CountRequests, Slip.Run, FeedSerial, Forwarded;
    FeedIsForwarded(st, env, bytes);
    var fs := Slip.Run(st.framing, RX_SERIAL_BUF, bytes).1;
    ForwardedRadio(st, env, fs);
    ForwardedSerial(st, env, fs);
  }

  /**
   * The reply to a diagnostic request: type 0x51 from address 0 to the sender, under its number,
   * and with counters that count the request itself.
   */
  lemma RequestIsAnswered(st: State, env: Env, h: Header, p: seq<byte>)
    requires h.kind == 0x50 && h.dstId == 0 && |p| <= 220 && env.toHost.Some?
    ensures var st' := ForwardToRadio(st, env, Wire(h, p));
            && st'.radio == st.radio && st'.asked == st.asked
            && var counted := st.stats.(serialIn := st.stats.serialIn + 1, localRequests := st.stats.localRequests + 1);
               st'.host == st.host + [Slip.Encode(Wire(Header(0x51, 0, h.srcId, h.seqNo, 0), env.statPayload(counted)))]
  {
    hide Slip.Encode, Crc16.Crc, Crc16.Word16, Crc16.Hi, Crc16.Lo;
    var f := Wire(h, p);
    ParseWire(h, p);
    StatRequestIs(h, p);
    assert DecodeHeader(f) == Some(h) by {
      Halves(h.srcId);
      Halves(h.dstId);
    }
  }

  /** What would not fit into the serial buffer is counted as an error and goes nowhere. */
  lemma TooLongForHost(st: State, env: Env, f: seq<byte>)
    requires |f| > 256
    ensures EmitToHost(st, env, f) == st.(stats := st.stats.(serialErrors := st.stats.serialErrors + 1))
  {
    hide Slip.Encode;
  }

  /** And from the other side: every valid radio frame goes to the host encoded, and nothing else does. */
  lemma RadioFrameIs(st: State, env: Env, f: seq<byte>)
    ensures var st' := OnRadioFrame(st, env, f);
            && st'.radio == st.radio && st'.asked == st.asked && st'.framing == st.framing
            && st'.stats.radioIn == st.stats.radioIn + 1
            && st'.host == st.host + (if Validate(f) == Accept && env.toHost.Some? then [Slip.Encode(f)] else [])
            && st'.stats.serialOut == st.stats.serialOut + Yes(env.toHost, |st.host|, |st'.host|)
            && st'.stats.serialErrors == st.stats.serialErrors +
                 (if Validate(f) == Accept then 1 else 0) - Yes(env.toHost, |st.host|, |st'.host|)
            && st'.stats.rejectedLen == st.stats.rejectedLen + (if Validate(f) == RejectLen then 1 else 0)
            && st'.stats.rejectedMagic == st.stats.rejectedMagic + (if Validate(f) == RejectMagic then 1 else 0)
            && st'.stats.rejectedCrc == st.stats.rejectedCrc + (if Validate(f) == RejectCrc then 1 else 0)
  {
    if Validate(f) == Accept {
      AcceptedFits(f);
    }
    hide Validate, Slip.Encode;
    YesOne(env.toHost, |st.host|);
    assert st.host + [] == st.host;
  }

  // ---- two bridges back to back -----------------------------------------------------

  /** Callbacks that are installed and never refuse. */
  ghost predicate Open(env: Env) {
    && env.toRadio.Some? && (forall n :: env.toRadio.value(n))
    && env.toHost.Some? && (forall n :: env.toHost.value(n))
    && (env.allowTx.Some? ==> forall n :: env.allowTx.value(n))
  }

  lemma {:induction false} OpenPermits(env: Env, asked: nat, fs: seq<seq<byte>>)
    requires Open(env)
    ensures Permitted(env, asked, fs) == fs
    decreases |fs|
  {
    if fs != [] {
      OpenPermits(env, asked + 1, fs[1..]);
    }
  }

  lemma {:induction false} RelayedConcat(s: seq<seq<byte>>, t: seq<seq<byte>>)
    ensures Relayed(s + t) == Relayed(s) + Relayed(t)
    decreases |s|
  {
    hide Validate, IsStatRequest;
    if s == [] {
      assert s + t == t;
    } else {
      assert (s + t)[1..] == s[1..] + t;
      RelayedConcat(s[1..], t);
    }
  }

  /** With callbacks that never refuse, the bridge hands to the radio what its decoder delivers, filtered. */
  lemma FeedRelays(st: State, env: Env, bytes: seq<byte>)
    requires Open(env)
    ensures FeedSerial(st, env, bytes).radio == st.radio + Relayed(Slip.Run(st.framing, RX_SERIAL_BUF, bytes).1)
  {
    hide FeedSerial, Slip.Run, Relayed, Permitted, Yes;
    StreamAccount(st, env, bytes);
    OpenPermits(env, st.asked, Relayed(Slip.Run(st.framing, RX_SERIAL_BUF, bytes).1));
  }

  /** Every frame short enough for the air is short enough for the serial buffers. */
  lemma {:induction false} RelayedFit(ps: seq<seq<byte>>)
    ensures Relayed(Slip.Deliverable(ps, RX_SERIAL_BUF)) == Relayed(ps)
    ensures Slip.Deliverable(Relayed(ps), RX_SERIAL_BUF) == Relayed(ps)
    ensures AllAccepted(Relayed(ps))
    decreases |ps|
  {
    hide IsStatRequest, Validate;
    if ps != [] {
      var p, rest := ps[0], ps[1..];
      RelayedFit(rest);
      if Validate(p) == Accept {
        AcceptedFits(p);
        assert Slip.Deliverable(ps, RX_SERIAL_BUF) == [p] + Slip.Deliverable(rest, RX_SERIAL_BUF);
        RelayedConcat([p], Slip.Deliverable(rest, RX_SERIAL_BUF));
        RelayedConcat([p], rest);
        assert Relayed([p]) == if IsStatRequest(p) then [] else [p] by { RelayedOnly(p); }
        assert [p] + rest == ps;
        DeliverableCons(p, Relayed(rest));
      } else {
        RelayedDrops(p, Slip.Deliverable(rest, RX_SERIAL_BUF));
      }
    }
  }

  lemma RelayedDrops(p: seq<byte>, rest: seq<seq<byte>>)
    requires Validate(p) != Accept
    ensures Relayed([p] + rest) == Relayed(rest)
  {
    hide Validate, IsStatRequest;
    assert ([p] + rest)[1..] == rest;
  }

  lemma DeliverableCons(p: seq<byte>, rest: seq<seq<byte>>)
    requires 0 < |p| <= RX_SERIAL_BUF
    ensures Slip.Deliverable([p] + rest, RX_SERIAL_BUF) == [p] + Slip.Deliverable(rest, RX_SERIAL_BUF)
  {
    assert ([p] + rest)[1..] == rest;
  }

  function OnRadioFrames(st: State, env: Env, fs: seq<seq<byte>>): State
    decreases |fs|
  {
    if fs == [] then st else OnRadioFrames(OnRadioFrame(st, env, fs[0]), env, fs[1..])
  }

  /** The far bridge puts every valid radio frame on its serial port, encoded. */
  lemma {:induction false} OpenRadioFrames(st: State, env: Env, fs: seq<seq<byte>>)
    requires Open(env) && AllAccepted(fs)
    ensures Flatten(OnRadioFrames(st, env, fs).host) == Flatten(st.host) + Slip.EncodeAll(fs)
    decreases |fs|
  {
    hide Validate, Slip.Encode;
    if fs != [] {
      assert AllAccepted(fs[1..]);
      AcceptedFits(fs[0]);
      FlattenSnoc(st.host, Slip.Encode(fs[0]));
      OpenRadioFrames(OnRadioFrame(st, env, fs[0]), env, fs[1..]);
      assert Flatten(st.host) + Slip.Encode(fs[0]) + Slip.EncodeAll(fs[1..]) == Flatten(st.host) + Slip.EncodeAll(fs);
    } else {
      assert Flatten(st.host) + [] == Flatten(st.host);
    }
  }

  lemma AcceptedFits(f: seq<byte>)
    requires Validate(f) == Accept
    ensures MIN_FRAME <= |f| <= MTU
  {
    hide Crc16.Crc;
  }

  lemma {:induction false} FlattenSnoc(chunks: seq<seq<byte>>, chunk: seq<byte>)
    ensures Flatten(chunks + [chunk]) == Flatten(chunks) + chunk
    decreases |chunks|
  {
    if chunks == [] {
      assert (chunks + [chunk])[1..] == [];
      assert chunk + [] == chunk;
    } else {
      assert (chunks + [chunk])[1..] == chunks[1..] + [chunk];
      FlattenSnoc(chunks[1..], chunk);
    }
  }

  /**
   * Host to host, over two bridges and a lossless radio: however the near host's encoded
   * frames are chunked, and however the far host's port chunks what comes back, the far host
   * decodes exactly the valid frames, byte for byte and in order.
   */
  lemma EndToEnd(near: Env, far: Env, ps: seq<seq<byte>>, chunks: seq<seq<byte>>)
    requires Open(near) && Open(far)
    requires Flatten(chunks) == Slip.EncodeAll(ps)
    ensures var air := FeedChunks(FRESH, near, chunks).radio;
            var port := Flatten(OnRadioFrames(FRESH, far, air).host);
            Slip.Run(Slip.Framing(Slip.Idle, []), RX_SERIAL_BUF, port).1 == Relayed(ps)
  {
    hide FeedChunks, FeedSerial, Slip.Run, Relayed, OnRadioFrames, Slip.EncodeAll, Slip.Deliverable, Flatten, Open;
    ChunksAreInvisible(FRESH, near, chunks);
    FeedRelays(FRESH, near, Slip.EncodeAll(ps));
    Slip.RunEncodeAll(Slip.Framing(Slip.Idle, []), RX_SERIAL_BUF, ps);
    RelayedFit(ps);
    OpenRadioFrames(FRESH, far, Relayed(ps));
    Slip.RunEncodeAll(Slip.Framing(Slip.Idle, []), RX_SERIAL_BUF, Relayed(ps));
    assert FRESH.radio == [] && Flatten(FRESH.host) == [] by { FreshIsEmpty(); }
    assert [] + Slip.EncodeAll(Relayed(ps)) == Slip.EncodeAll(Relayed(ps));
    assert [] + Relayed(ps) == Relayed(ps);
  }

  lemma FreshIsEmpty()
    ensures FRESH.radio == [] && Flatten(FRESH.host) == [] && FRESH.framing == Slip.Framing(Slip.Idle, [])
  {
  }
}
