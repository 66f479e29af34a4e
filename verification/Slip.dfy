/**
 * SLIP framing over a byte stream (the PROTOCOL section of RFC 1055), hardened: an
 * illegal escape or an oversized frame costs the frame it happened in, and nothing else.
 */
module Slip {
  import opened Bytes

  const END: byte := 0xC0
  const ESC: byte := 0xDB
  const ESC_END: byte := 0xDC
  const ESC_ESC: byte := 0xDD

  datatype State = Idle | InFrame | Escaped | Resync

  datatype Event = NeedMore | FrameReady | Error

  /** Framing state: where the decoder is, and the bytes of the frame so far. */
  datatype Framing = Framing(state: State, partial: seq<byte>)

  /** What a byte does to the framing state, for a frame buffer of `cap` bytes. */
  function Feed(f: Framing, cap: nat, b: byte): (Framing, Event) {
    match f.state
    case Idle =>
      if b == END then (Framing(Idle, []), NeedMore)
      else if b == ESC then (Framing(Escaped, []), NeedMore)
      else Append([], cap, b)
    case InFrame =>
      if b == END then (Framing(Idle, f.partial), if f.partial == [] then NeedMore else FrameReady)
      else if b == ESC then (Framing(Escaped, f.partial), NeedMore)
      else Append(f.partial, cap, b)
    case Escaped =>
      if b == ESC_END then Append(f.partial, cap, END)
      else if b == ESC_ESC then Append(f.partial, cap, ESC)
      else (Framing(if b == END then Idle else Resync, []), Error)
    case Resync =>
      (if b == END then Framing(Idle, []) else f, NeedMore)
  }

  function Append(partial: seq<byte>, cap: nat, b: byte): (Framing, Event) {
    if |partial| >= cap then (Framing(Resync, []), Error) else (Framing(InFrame, partial + [b]), NeedMore)
  }

  /** The framing state after a byte stream, and the frames delivered on the way. */
  function Run(f: Framing, cap: nat, s: seq<byte>): (Framing, seq<seq<byte>>)
    decreases |s|
  {
    if s == [] then (f, []) else
      var (f', e) := Feed(f, cap, s[0]);
      var (g, frames) := Run(f', cap, s[1..]);
      (g, if e.FrameReady? then [f'.partial] + frames else frames)
  }

  function Escape(b: byte): (s: seq<byte>)
    ensures 1 <= |s| <= 2 && END !in s
  {
    if b == END then [ESC, ESC_END] else if b == ESC then [ESC, ESC_ESC] else [b]
  }

  function EscapeAll(p: seq<byte>): (s: seq<byte>)
    ensures |p| <= |s| <= 2 * |p| && END !in s
  {
    if p == [] then [] else EscapeAll(p[..|p| - 1]) + Escape(p[|p| - 1])
  }

  /** One frame on the wire: END, escaped payload, END. */
  function Encode(p: seq<byte>): (s: seq<byte>)
    ensures 2 <= |s| <= 2 * |p| + 2
  {
    [END] + EscapeAll(p) + [END]
  }

  function EncodeAll(ps: seq<seq<byte>>): seq<byte> {
    if ps == [] then [] else Encode(ps[0]) + EncodeAll(ps[1..])
  }

  /** The payloads a decoder of capacity `cap` can deliver: not empty, and not too long. */
  function Deliverable(ps: seq<seq<byte>>, cap: nat): seq<seq<byte>> {
    if ps == [] then []
    else if 0 < |ps[0]| <= cap then [ps[0]] + Deliverable(ps[1..], cap)
    else Deliverable(ps[1..], cap)
  }

  // ---- the decoder ------------------------------------------------------------------

  class Decoder {
    const buf: array<byte>
    var len: nat
    var state: State
    var framesOk: nat
    var overflow: nat
    var badEscape: nat
    var dropped: nat

    ghost predicate Valid()
      reads this, buf
    {
      len <= buf.Length && (state == Resync ==> len == 0)
    }

    /** The framing state; in Idle the buffer holds the last frame, if any. */
    ghost function View(): Framing
      reads this, buf
      requires Valid()
    {
      Framing(state, buf[..len])
    }

    constructor (buf: array<byte>)
      ensures Valid() && this.buf == buf && View() == Framing(Idle, [])
      ensures framesOk == overflow == badEscape == dropped == 0
    {
      this.buf := buf;
      len, state := 0, Idle;
      framesOk, overflow, badEscape, dropped := 0, 0, 0, 0;
    }

    method Reset()
      modifies this
      ensures Valid() && View() == Framing(Idle, [])
      ensures framesOk == old(framesOk) && overflow == old(overflow) && badEscape == old(badEscape) && dropped == old(dropped)
    {
      len, state := 0, Idle;
    }

    method EnterResync()
      modifies this
      ensures Valid() && View() == Framing(Resync, [])
      ensures dropped == old(dropped) + 1
      ensures framesOk == old(framesOk) && overflow == old(overflow) && badEscape == old(badEscape)
    {
      len, state := 0, Resync;
      dropped := dropped + 1;
    }

    method AppendByte(b: byte) returns (fits: bool)
      requires Valid() && state == InFrame
      modifies this, buf
      ensures Valid() && (View(), if fits then NeedMore else Error) == Append(old(View()).partial, buf.Length, b)
      ensures framesOk == old(framesOk) && badEscape == old(badEscape)
      ensures if fits then overflow == old(overflow) && dropped == old(dropped)
              else overflow == old(overflow) + 1 && dropped == old(dropped) + 1
    {
      if len >= buf.Length {
        overflow := overflow + 1;
        EnterResync();
        return false;
      }
      buf[len] := b;
      len := len + 1;
      assert buf[..len] == old(buf[..len]) + [b];
      return true;
    }

    /** Feeds one byte; nothing is ever written past the buffer, and every frame is counted once. */
    method FeedByte(b: byte) returns (e: Event)
      requires Valid()
      modifies this, buf
      ensures Valid() && (View(), e) == Feed(old(View()), buf.Length, b)
      ensures framesOk == old(framesOk) + if e == FrameReady then 1 else 0
      ensures dropped == old(dropped) + if e == Error then 1 else 0
      ensures dropped - old(dropped) == (overflow - old(overflow)) + (badEscape - old(badEscape))
    {
      if state == Idle { len := 0; }
      match state
      case Idle =>
        if b == END { return NeedMore; }
        if b == ESC { state := Escaped; return NeedMore; }
        state := InFrame;
        var fits := AppendByte(b);
        return if fits then NeedMore else Error;
      case InFrame =>
        if b == END {
          state := Idle;
          if len == 0 { return NeedMore; }
          framesOk := framesOk + 1;
          return FrameReady;
        }
        if b == ESC { state := Escaped; return NeedMore; }
        var fits := AppendByte(b);
        return if fits then NeedMore else Error;
      case Escaped =>
        if b == ESC_END {
          state := InFrame;
          var fits := AppendByte(END);
          return if fits then NeedMore else Error;
        }
        if b == ESC_ESC {
          state := InFrame;
          var fits := AppendByte(ESC);
          return if fits then NeedMore else Error;
        }
        badEscape := badEscape + 1;
        EnterResync();
        if b == END { state := Idle; }
        return Error;
      case Resync =>
        if b == END { state := Idle; }
        return NeedMore;
    }

    /** Feeds a chunk and returns copies of the frames it completed. */
    method Push(chunk: seq<byte>) returns (frames: seq<seq<byte>>)
      requires Valid()
      modifies this, buf
      ensures Valid() && (View(), frames) == Run(old(View()), buf.Length, chunk)
    {
      frames := [];
      assert chunk[0..] == chunk;
      for i := 0 to |chunk|
        invariant Valid()
        invariant Run(View(), buf.Length, chunk[i..]).0 == Run(old(View()), buf.Length, chunk).0
        invariant frames + Run(View(), buf.Length, chunk[i..]).1 == Run(old(View()), buf.Length, chunk).1
      {
        hide Feed;
        assert chunk[i..][1..] == chunk[i + 1..];
        var e := FeedByte(chunk[i]);
        if e == FrameReady {
          frames := frames + [buf[..len]];
        }
      }
      assert chunk[|chunk|..] == [] && frames + [] == frames;
    }
  }

  /** Encodes into a caller's buffer, if that has room for the longest encoding there could be. */
  method EncodeInto(p: seq<byte>, out: array<byte>) returns (n: nat)
    modifies out
    ensures 2 * |p| + 2 > out.Length ==> n == 0 && out[..] == old(out[..])
    ensures 2 * |p| + 2 <= out.Length ==> n == |Encode(p)| <= out.Length && out[..n] == Encode(p)
    ensures n <= out.Length && out[n..] == old(out[n..])
  {
    hide Escape, EscapeAll;
    if 2 * |p| + 2 > out.Length { return 0; }
    out[0] := END;
    n := 1;
    EscapeAllStep(p, 0);
    for i := 0 to |p|
      invariant n == 1 + |EscapeAll(p[..i])|
      invariant out[..n] == [END] + EscapeAll(p[..i])
      invariant out[n..] == old(out[n..])
    {
      EscapeAllStep(p, i);
      n := PutEscaped(p[i], out, n);
    }
    assert p[..|p|] == p;
    out[n] := END;
    n := n + 1;
  }

  lemma EscapeAllStep(p: seq<byte>, i: nat)
    requires i <= |p|
    ensures EscapeAll(p[..0]) == []
    ensures i < |p| ==> EscapeAll(p[..i + 1]) == EscapeAll(p[..i]) + Escape(p[i])
  {
    if i < |p| {
      assert p[..i + 1][..i] == p[..i];
    }
  }

  method PutEscaped(b: byte, out: array<byte>, start: nat) returns (n: nat)
    requires start + 2 <= out.Length
    modifies out
    ensures n == start + |Escape(b)|
    ensures out[..n] == old(out[..start]) + Escape(b)
    ensures out[n..] == old(out[n..])
  {
    if b == END {
      out[start] := ESC;
      out[start + 1] := ESC_END;
      n := start + 2;
    } else if b == ESC {
      out[start] := ESC;
      out[start + 1] := ESC_ESC;
      n := start + 2;
    } else {
      out[start] := b;
      n := start + 1;
    }
  }

  // ---- what a stream delivers -------------------------------------------------------

  /** Chunking is invisible: two chunks deliver what their concatenation does. */
  lemma {:induction false} RunConcat(f: Framing, cap: nat, s: seq<byte>, t: seq<byte>)
    ensures var (g, a) := Run(f, cap, s); var (h, b) := Run(g, cap, t); Run(f, cap, s + t) == (h, a + b)
    decreases |s|
  {
    hide Feed;
    if s == [] {
      assert s + t == t;
      assert [] + Run(f, cap, t).1 == Run(f, cap, t).1;
    } else {
      assert (s + t)[1..] == s[1..] + t;
      var f' := Feed(f, cap, s[0]).0;
      RunConcat(f', cap, s[1..], t);
      assert Run(f, cap, s + t).1 == Run(f, cap, s).1 + Run(Run(f, cap, s).0, cap, t).1;
    }
  }

  /** An END always leaves the decoder between frames, delivering at most the frame it closes. */
  lemma AfterEnd(f: Framing, cap: nat)
    ensures var (g, frames) := Run(f, cap, [END]); g.state == Idle && |frames| <= 1
  {
    assert [END][1..] == [];
  }

  /** Between frames, what the buffer still holds of the last frame is irrelevant. */
  lemma IdleForgets(f: Framing, cap: nat, s: seq<byte>)
    requires f.state == Idle && s != []
    ensures Run(f, cap, s) == Run(Framing(Idle, []), cap, s)
  {
  }

  /** Frame bytes accumulate the payload until it no longer fits. */
  lemma {:induction false} RunEscaped(cap: nat, p: seq<byte>)
    ensures Run(Framing(Idle, []), cap, EscapeAll(p)) ==
            (if p == [] then Framing(Idle, []) else if |p| <= cap then Framing(InFrame, p) else Framing(Resync, []), [])
    decreases |p|
  {
    if p != [] {
      hide Run, Escape, EscapeAll, Append;
      var q, b := p[..|p| - 1], p[|p| - 1];
      RunEscaped(cap, q);
      EscapeAllLast(p);
      RunConcat(Framing(Idle, []), cap, EscapeAll(q), Escape(b));
      RunEscape(Run(Framing(Idle, []), cap, EscapeAll(q)).0, cap, b);
      AppendFits(q, cap, b);
      assert p == q + [b];
    }
  }

  lemma EscapeAllLast(p: seq<byte>)
    requires p != []
    ensures EscapeAll(p) == EscapeAll(p[..|p| - 1]) + Escape(p[|p| - 1])
  {
  }

  lemma AppendFits(q: seq<byte>, cap: nat, b: byte)
    ensures Append(q, cap, b).0 == if |q| < cap then Framing(InFrame, q + [b]) else Framing(Resync, [])
  {
  }

  /** An escape pair, or a plain byte, appends one byte. */
  lemma RunEscape(f: Framing, cap: nat, b: byte)
    requires f.state == Idle ==> f.partial == []
    requires f.state == Idle || f.state == InFrame || f == Framing(Resync, [])
    ensures Run(f, cap, Escape(b)) == (if f.state == Resync then f else Append(f.partial, cap, b).0, [])
  {
    if b == END || b == ESC {
      var x := if b == END then ESC_END else ESC_ESC;
      assert Escape(b) == [ESC, x] && [ESC, x][1..] == [x] && [x][1..] == [];
      var f' := Feed(f, cap, ESC).0;
      assert Run(f', cap, [x]) == (Feed(f', cap, x).0, []);
    } else {
      assert Escape(b) == [b] && [b][1..] == [];
    }
  }

  /** One encoded frame, met between frames. */
  lemma RunEncode(f: Framing, cap: nat, p: seq<byte>)
    requires f.state == Idle
    ensures var (g, frames) := Run(f, cap, Encode(p));
            g.state == Idle && frames == if 0 < |p| <= cap then [p] else []
  {
    var start := Framing(Idle, []);
    RunConcat(f, cap, [END] + EscapeAll(p), [END]);
    RunConcat(f, cap, [END], EscapeAll(p));
    assert Run(f, cap, [END]) == (start, []) by { assert [END][1..] == []; }
    RunEscaped(cap, p);
    AfterEnd(Run(start, cap, EscapeAll(p)).0, cap);
    assert [END][1..] == [];
  }

  /** A stream of encoded frames, met between frames, delivers exactly the frames that fit. */
  lemma {:induction false} RunEncodeAll(f: Framing, cap: nat, ps: seq<seq<byte>>)
    requires f.state == Idle
    ensures var (g, frames) := Run(f, cap, EncodeAll(ps)); g.state == Idle && frames == Deliverable(ps, cap)
    decreases |ps|
  {
    if ps != [] {
      RunConcat(f, cap, Encode(ps[0]), EncodeAll(ps[1..]));
      RunEncode(f, cap, ps[0]);
      RunEncodeAll(Run(f, cap, Encode(ps[0])).0, cap, ps[1..]);
    }
  }

  /**
   * Resynchronisation: from any framing state, after any noise, the encoded frames that
   * follow are delivered exactly, behind at most one spurious frame closed by their first END.
   */
  lemma Resynchronises(f: Framing, cap: nat, noise: seq<byte>, ps: seq<seq<byte>>)
    requires ps != []
    ensures exists spurious ::
              |spurious| <= 1 &&
              Run(f, cap, noise + EncodeAll(ps)).1 == Run(f, cap, noise).1 + spurious + Deliverable(ps, cap)
  {
    hide Feed, Encode, EscapeAll, Deliverable;
    var all := EncodeAll(ps);
    var g := Run(f, cap, noise).0;
    RunConcat(f, cap, noise, all);
    var tail := StartsWithEnd(ps);
    var h, spurious := Run(g, cap, [END]).0, Run(g, cap, [END]).1;
    RunConcat(g, cap, [END], tail);
    AfterEnd(g, cap);
    var idle := Framing(Idle, []);
    RunConcat(idle, cap, [END], tail);
    IdleEnd(cap);
    RunEncodeAll(idle, cap, ps);
    IdleForgets(h, cap, tail);
    assert Run(f, cap, noise + all).1 == Run(f, cap, noise).1 + spurious + Deliverable(ps, cap);
  }

  lemma IdleEnd(cap: nat)
    ensures Run(Framing(Idle, []), cap, [END]) == (Framing(Idle, []), [])
  {
    assert [END][1..] == [];
  }

  lemma StartsWithEnd(ps: seq<seq<byte>>) returns (tail: seq<byte>)
    requires ps != []
    ensures EncodeAll(ps) == [END] + tail && tail != []
  {
    tail := EscapeAll(ps[0]) + [END] + EncodeAll(ps[1..]);
  }

  // ---- what a stream delivers, segment by segment ---------------------------------------

  /** What a segment between two ENDs stands for, if its escapes are legal. */
  function Unescape(w: seq<byte>): Option<seq<byte>>
    decreases |w|
  {
    if w == [] then Some([])
    else if w[0] != 0xDB then Prepend(w[0], Unescape(w[1..]))
    else if |w| >= 2 && w[1] == 0xDC then Prepend(0xC0, Unescape(w[2..]))
    else if |w| >= 2 && w[1] == 0xDD then Prepend(0xDB, Unescape(w[2..]))
    else None
  }

  function Prepend(b: byte, r: Option<seq<byte>>): Option<seq<byte>> {
    match r
    case None => None
    case Some(s) => Some([b] + s)
  }

  /** Nothing, if the segment is empty, illegal or too long. */
  function Payload(q: seq<byte>, r: Option<seq<byte>>, cap: nat): seq<seq<byte>> {
    if r.Some? && 0 < |q + r.value| <= cap then [q + r.value] else []
  }

  /** The segments closed by an END. */
  function Segments(s: seq<byte>): seq<seq<byte>>
    decreases |s|
  {
    if END !in s then [] else
      var n := Before(s);
      [s[..n]] + Segments(s[n + 1..])
  }

  /** How many bytes come before the first END. */
  function Before(s: seq<byte>): (n: nat)
    requires END in s
    ensures n < |s| && s[n] == END && END !in s[..n]
  {
    if s[0] == END then 0 else
      var n := Before(s[1..]);
      assert s[..n + 1] == [s[0]] + s[1..][..n];
      n + 1
  }

  function Decoded(ws: seq<seq<byte>>, cap: nat): seq<seq<byte>> {
    if ws == [] then [] else Payload([], Unescape(ws[0]), cap) + Decoded(ws[1..], cap)
  }

  lemma RunCons(f: Framing, cap: nat, b: byte, t: seq<byte>)
    ensures var (f', e) := Feed(f, cap, b); var (g, frames) := Run(f', cap, t);
            Run(f, cap, [b] + t) == (g, if e.FrameReady? then [f'.partial] + frames else frames)
  {
    hide Feed;
    assert ([b] + t)[1..] == t;
  }

  /** While the rest of a spoilt frame goes by, nothing happens until its END. */
  lemma {:induction false} SkipsToEnd(cap: nat, w: seq<byte>)
    requires END !in w
    ensures Run(Framing(Resync, []), cap, w + [END]) == (Framing(Idle, []), [])
    decreases |w|
  {
    if w == [] {
      assert [] + [END] == [END] + [];
      RunCons(Framing(Resync, []), cap, END, []);
    } else {
      assert w + [END] == [w[0]] + (w[1..] + [END]);
      RunCons(Framing(Resync, []), cap, w[0], w[1..] + [END]);
      SkipsToEnd(cap, w[1..]);
    }
  }

  /** One segment, met with the bytes `q` of its frame already in hand. */
  lemma {:induction false} SegmentIs(cap: nat, q: seq<byte>, w: seq<byte>)
    requires END !in w && |q| <= cap
    ensures var (g, frames) := Run(Framing(InFrame, q), cap, w + [END]);
            g.state == Idle && frames == Payload(q, Unescape(w), cap)
    decreases |w|, 0
  {
    hide Run, Unescape, Payload;
    var f := Framing(InFrame, q);
    if w == [] {
      assert [] + [END] == [END] + [];
      RunCons(f, cap, END, []);
      EmptyEnd(cap, q);
    } else {
      UnescapeOpens(w, q, cap);
      assert w + [END] == [w[0]] + (w[1..] + [END]);
      RunCons(f, cap, w[0], w[1..] + [END]);
      if w[0] != ESC {
        AppendThen(cap, q, w[0], w[1..]);
      } else if |w| >= 2 {
        assert w[1..] + [END] == [w[1]] + (w[2..] + [END]);
        RunCons(Framing(Escaped, q), cap, w[1], w[2..] + [END]);
        if w[1] == ESC_END {
          AppendThen(cap, q, END, w[2..]);
        } else if w[1] == ESC_ESC {
          AppendThen(cap, q, ESC, w[2..]);
        } else {
          SkipsToEnd(cap, w[2..]);
        }
      } else {
        assert w[1..] + [END] == [END] + [];
        RunCons(Framing(Escaped, q), cap, END, []);
        NothingLeft(cap, Framing(Idle, []));
      }
    }
  }

  lemma NothingLeft(cap: nat, f: Framing)
    ensures Run(f, cap, []) == (f, [])
  {
  }

  lemma EmptyEnd(cap: nat, q: seq<byte>)
    requires |q| <= cap
    ensures Run(Framing(Idle, q), cap, []) == (Framing(Idle, q), [])
    ensures Payload(q, Unescape([]), cap) == if q == [] then [] else [q]
  {
    assert q + [] == q;
  }

  /** A byte is added to the frame, and the rest of the segment follows. */
  lemma AppendThen(cap: nat, q: seq<byte>, b: byte, w: seq<byte>)
    requires END !in w && |q| <= cap
    ensures var (g, frames) := Run(Append(q, cap, b).0, cap, w + [END]);
            g.state == Idle && frames == Payload(q, Prepend(b, Unescape(w)), cap)
    decreases |w|, 1
  {
    hide Run, Unescape;
    if |q| < cap {
      SegmentIs(cap, q + [b], w);
      if Unescape(w).Some? {
        assert q + [b] + Unescape(w).value == q + ([b] + Unescape(w).value);
      }
    } else {
      SkipsToEnd(cap, w);
    }
  }

  lemma UnescapeOpens(w: seq<byte>, q: seq<byte>, cap: nat)
    requires w != []
    ensures w[0] != ESC ==> Unescape(w) == Prepend(w[0], Unescape(w[1..]))
    ensures w[0] == ESC && |w| >= 2 && w[1] == ESC_END ==> Unescape(w) == Prepend(END, Unescape(w[2..]))
    ensures w[0] == ESC && |w| >= 2 && w[1] == ESC_ESC ==> Unescape(w) == Prepend(ESC, Unescape(w[2..]))
    ensures w[0] == ESC && (|w| == 1 || (w[1] != ESC_END && w[1] != ESC_ESC)) ==> Payload(q, Unescape(w), cap) == []
  {
  }

  /** Before the first byte of a frame the decoder might as well be in it. */
  lemma IdleIsInFrame(cap: nat, q: seq<byte>, s: seq<byte>)
    requires s != []
    ensures Run(Framing(Idle, q), cap, s) == Run(Framing(InFrame, []), cap, s)
  {
    hide Run;
    assert s == [s[0]] + s[1..];
    RunCons(Framing(Idle, q), cap, s[0], s[1..]);
    RunCons(Framing(InFrame, []), cap, s[0], s[1..]);
  }

  /** Without an END nothing is delivered. */
  lemma {:induction false} NoEndNoFrame(f: Framing, cap: nat, s: seq<byte>)
    requires END !in s
    ensures Run(f, cap, s).1 == []
    decreases |s|
  {
    if s != [] {
      NoEndNoFrame(Feed(f, cap, s[0]).0, cap, s[1..]);
    }
  }

  /**
   * Whatever bytes come in, met between frames: what is delivered is what the segments between
   * ENDs stand for, in order. A segment that is empty, has an illegal escape or is too long
   * costs itself and nothing else.
   */
  lemma {:induction false} DeliversSegments(f: Framing, cap: nat, s: seq<byte>)
    requires f.state == Idle
    ensures Run(f, cap, s).1 == Decoded(Segments(s), cap)
    decreases |s|
  {
    if END !in s {
      NoEndNoFrame(f, cap, s);
    } else {
      hide Run, Unescape, Payload;
      var n := Before(s);
      var w, rest := s[..n], s[n + 1..];
      assert s == w + [END] + rest;
      RunConcat(f, cap, w + [END], rest);
      IdleIsInFrame(cap, f.partial, w + [END]);
      SegmentIs(cap, [], w);
      DeliversSegments(Run(f, cap, w + [END]).0, cap, rest);
    }
  }

  /** The two bytes that must not appear are each sent as two others. */
  lemma EncodeExample()
    ensures Encode([0x01, 0xC0, 0xDB, 0x02]) == [0xC0, 0x01, 0xDB, 0xDC, 0xDB, 0xDD, 0x02, 0xC0]
    ensures Encode([]) == [0xC0, 0xC0]
  {
    var s: seq<byte> := [0x01, 0xC0, 0xDB, 0x02];
    assert s[..3] == [0x01, 0xC0, 0xDB] && s[..3][..2] == [0x01, 0xC0] && s[..3][..2][..1] == [0x01] && s[..3][..2][..1][..0] == [];
    assert EscapeAll([0x01]) == [0x01];
    assert EscapeAll([0x01, 0xC0]) == [0x01, 0xDB, 0xDC];
    assert EscapeAll([0x01, 0xC0, 0xDB]) == [0x01, 0xDB, 0xDC, 0xDB, 0xDD];
  }
}
