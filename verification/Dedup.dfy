/**
 * The duplicate window: a 32-bit bitmap per sender over 8-bit sequence numbers, for up to
 * eight senders, the least recently heard giving way to a ninth.
 */
module Dedup {
  import opened Bytes

  const WINDOW := 32
  const PEERS := 8
  const SEQS := 256

  /** A `uint32_t` as its bits, bit 0 first. */
  type Bitmap = b: seq<bool> | |b| == WINDOW witness seq(WINDOW, _ => false)

  /** `n` zero bits. */
  function Zeros(n: nat): (s: seq<bool>)
    ensures |s| == n && forall i :: 0 <= i < n ==> !s[i]
  {
    seq(n, _ => false)
  }

  /** `bitmap << d`, written out for a `d` past the width. */
  function ShiftLeft(b: Bitmap, d: nat): Bitmap {
    if d >= WINDOW then Zeros(WINDOW) else Zeros(d) + b[..WINDOW - d]
  }

  datatype Verdict = Accepted | Duplicate | TooOld

  /** Signed 8-bit distance between two sequence numbers: a gap over 127 reads as old. */
  function SeqDelta(seqNo: nat, reference: nat): int {
    var d := (seqNo - reference) % SEQS;
    if d >= 128 then d - SEQS else d
  }

  /** What is remembered of one sender: bit `n` says `last - n` has been seen. */
  datatype Window = Window(last: nat, bitmap: Bitmap)

  /** The verdict on one number, and the window after it. */
  function Judge(w: Window, seqNo: nat): (Window, Verdict) {
    var delta := SeqDelta(seqNo, w.last);
    if delta > 0 then
      (Window(seqNo, ShiftLeft(w.bitmap, delta)[0 := true]), Accepted)
    else
      var age := -delta;
      if age >= WINDOW then (w, TooOld)
      else if w.bitmap[age] then (w, Duplicate)
      else (w.(bitmap := w.bitmap[age := true]), Accepted)
  }

  /** The first frame of a sender is always new. */
  function FirstHeard(seqNo: nat): Window {
    Window(seqNo, Zeros(WINDOW)[0 := true])
  }

  // ---- the window refines an unbounded set of ids -----------------------------------

  /** Every id accepted from one sender, and the newest of them; `seq = id mod 256` on the wire. */
  datatype Ideal = Ideal(newest: int, seen: set<int>)

  /** The rule the window implements: newer than all, or under 32 behind and not seen. */
  predicate IdealAccepts(i: Ideal, id: int) {
    id > i.newest || (i.newest - id < WINDOW && id !in i.seen)
  }

  function IdealJudge(i: Ideal, id: int): Ideal {
    if IdealAccepts(i, id) then Ideal(Max(i.newest, id), i.seen + {id}) else i
  }

  ghost predicate Represents(w: Window, i: Ideal) {
    && w.last == i.newest % SEQS
    && i.newest in i.seen
    && (forall id :: id in i.seen ==> id <= i.newest)
    && (forall age :: 0 <= age < WINDOW ==> (w.bitmap[age] <==> (i.newest - age) in i.seen))
  }

  lemma DeltaInRange(id: int, newest: int)
    requires -128 <= id - newest <= 127
    ensures SeqDelta(id % SEQS, newest % SEQS) == id - newest
  {
  }

  /** The signed delta is the distance between the ids, up to a whole number of wraps. */
  lemma DeltaModulo(id: int, newest: int)
    ensures SeqDelta(id % SEQS, newest % SEQS) == (id - newest + 128) % SEQS - 128
  {
  }

  lemma FirstHeardRepresents(id: int)
    ensures Represents(FirstHeard(id % SEQS), Ideal(id, {id}))
  {
  }

  /** In range, through any number of wraps, the window's verdict and memory are the ideal ones. */
  lemma JudgeRefines(w: Window, i: Ideal, id: int)
    requires Represents(w, i) && -128 <= id - i.newest <= 127
    ensures var (w', v) := Judge(w, id % SEQS);
            && (v == Accepted <==> IdealAccepts(i, id)) && Represents(w', IdealJudge(i, id))
            && (v == TooOld <==> i.newest - id >= 32) && (v == Duplicate <==> i.newest - id < 32 && id in i.seen)
  {
    DeltaInRange(id, i.newest);
    var delta := id - i.newest;
    var i' := IdealJudge(i, id);
    var (w', v) := Judge(w, id % SEQS);
    if delta > 0 {
      forall age | 0 <= age < WINDOW
        ensures w'.bitmap[age] <==> (i'.newest - age) in i'.seen
      {
        if age >= delta {
          assert i'.newest - age == i.newest - (age - delta);
        }
      }
    } else if -delta < WINDOW {
      assert id == i.newest - (-delta);
    }
  }

  /**
   * Exactly when an id that was already accepted is accepted again, at any distance: when the
   * distance behind the newest, modulo 256, reads as ahead, or as an unseen id of the window.
   */
  lemma ReacceptedIff(w: Window, i: Ideal, id: int)
    requires Represents(w, i) && id in i.seen
    ensures var behind := (i.newest - id) % SEQS;
            Judge(w, id % SEQS).1 == Accepted <==> behind > 128 || (behind < WINDOW && (i.newest - behind) !in i.seen)
  {
    DeltaModulo(id, i.newest);
    var behind := (i.newest - id) % SEQS;
    assert (id - i.newest + 128) % SEQS - 128 == if behind > 128 then SEQS - behind else -behind by {
      BehindAhead(i.newest - id);
    }
  }

  lemma BehindAhead(n: int)
    ensures (128 - n) % SEQS - 128 == if n % SEQS > 128 then SEQS - n % SEQS else -(n % SEQS)
  {
  }

  /** The header comment's rule for gaps over 128 is not the code's: a far newer id is refused. */
  lemma FarAheadIsRefused(id: int, gap: int)
    requires 128 <= gap <= SEQS - WINDOW
    ensures Judge(FirstHeard(id % SEQS), (id + gap) % SEQS).1 == TooOld
  {
    DeltaModulo(id + gap, id);
  }

  // ---- the table of senders ---------------------------------------------------------

  datatype Peer = Peer(srcId: nat, window: Window, heardUs: int)

  /** The first entry for a sender, or the length of the table. */
  function Find(peers: seq<Peer>, srcId: nat): (k: nat)
    ensures k <= |peers|
    ensures k < |peers| ==> peers[k].srcId == srcId
    ensures forall j :: 0 <= j < k ==> peers[j].srcId != srcId
  {
    if peers == [] then 0 else if peers[0].srcId == srcId then 0 else 1 + Find(peers[1..], srcId)
  }

  /** The first of the least recently heard among the first `n`. */
  function Oldest(peers: seq<Peer>, n: nat): (k: nat)
    requires 0 < n <= |peers|
    ensures k < n
    ensures forall j :: 0 <= j < n ==> peers[k].heardUs <= peers[j].heardUs
    ensures forall j :: 0 <= j < k ==> peers[k].heardUs < peers[j].heardUs
  {
    if n == 1 then 0 else
      var k := Oldest(peers, n - 1);
      if peers[n - 1].heardUs < peers[k].heardUs then n - 1 else k
  }

  /** One frame: the table after it, the verdict, and whether a sender was forgotten for it. */
  function CheckTable(peers: seq<Peer>, srcId: nat, seqNo: nat, now: int): (seq<Peer>, Verdict, bool)
  {
    var k := Find(peers, srcId);
    if k < |peers| then
      var (w, v) := Judge(peers[k].window, seqNo);
      (peers[k := Peer(srcId, w, now)], v, false)
    else
      var newcomer := Peer(srcId, FirstHeard(seqNo), now);
      if |peers| < PEERS then (peers + [newcomer], Accepted, false)
      else (peers[Oldest(peers, |peers|) := newcomer], Accepted, true)
  }

  class DedupWindow {
    var peers: seq<Peer>
    var dupesDropped: nat
    var tooOld: nat
    var peerEvicted: nat
    var accepted: nat

    ghost predicate Valid()
      reads this
    {
      |peers| <= PEERS
    }

    constructor ()
      ensures Valid() && peers == []
      ensures dupesDropped == tooOld == peerEvicted == accepted == 0
    {
      peers, dupesDropped, tooOld, peerEvicted, accepted := [], 0, 0, 0, 0;
    }

    method FindPeer(srcId: nat) returns (k: nat)
      ensures k == Find(peers, srcId)
    {
      k := 0;
      assert peers[0..] == peers;
      while k < |peers| && peers[k].srcId != srcId
        invariant k <= |peers| && Find(peers, srcId) == k + Find(peers[k..], srcId)
      {
        assert peers[k..][1..] == peers[k + 1..];
        k := k + 1;
      }
    }

    /** Takes a slot for a new sender: a free one, or the least recently heard sender's. */
    method ClaimPeer(newcomer: Peer)
      requires Valid()
      modifies this`peers, this`peerEvicted
      ensures Valid()
      ensures if |old(peers)| < PEERS then peers == old(peers) + [newcomer] && peerEvicted == old(peerEvicted)
              else peers == old(peers)[Oldest(old(peers), |old(peers)|) := newcomer] && peerEvicted == old(peerEvicted) + 1
    {
      if |peers| < PEERS {
        peers := peers + [newcomer];
        return;
      }
      var k := 0;
      for i := 1 to |peers|
        invariant k == Oldest(peers, i)
      {
        if peers[i].heardUs < peers[k].heardUs { k := i; }
      }
      peerEvicted := peerEvicted + 1;
      peers := peers[k := newcomer];
    }

    /** True for a frame to process; the call remembers the frame. */
    method CheckAndMark(srcId: nat, seqNo: nat, now: int) returns (isNew: bool)
      requires Valid()
      modifies this
      ensures Valid()
      ensures var (peers', v, evicted) := CheckTable(old(peers), srcId, seqNo, now);
              && peers == peers' && isNew == (v == Accepted)
              && accepted == old(accepted) + (if v == Accepted then 1 else 0)
              && dupesDropped == old(dupesDropped) + (if v == Duplicate then 1 else 0)
              && tooOld == old(tooOld) + (if v == TooOld then 1 else 0)
              && peerEvicted == old(peerEvicted) + (if evicted then 1 else 0)
    {
      var k := FindPeer(srcId);
      if k == |peers| {
        ClaimPeer(Peer(srcId, FirstHeard(seqNo), now));
        accepted := accepted + 1;
        return true;
      }
      var w := peers[k].window;
      peers := peers[k := Peer(srcId, w, now)];
      var delta := SeqDelta(seqNo, w.last);
      if delta > 0 {
        var bitmap := ShiftLeft(w.bitmap, delta);
        bitmap := bitmap[0 := true];
        peers := peers[k := Peer(srcId, Window(seqNo, bitmap), now)];
        accepted := accepted + 1;
        return true;
      }
      var age := -delta;
      if age >= WINDOW {
        tooOld := tooOld + 1;
        return false;
      }
      if w.bitmap[age] {
        dupesDropped := dupesDropped + 1;
        return false;
      }
      peers := peers[k := Peer(srcId, w.(bitmap := w.bitmap[age := true]), now)];
      accepted := accepted + 1;
      return true;
    }
  }

  // ---- one sender cannot disturb another --------------------------------------------

  datatype Heard = Heard(srcId: nat, seqNo: nat, at: int)

  function RunTable(frames: seq<Heard>): seq<Peer> {
    if frames == [] then [] else
      var n := |frames| - 1;
      CheckTable(RunTable(frames[..n]), frames[n].srcId, frames[n].seqNo, frames[n].at).0
  }

  /** One sender's frames, in order. */
  function Project(frames: seq<Heard>, srcId: nat): seq<nat> {
    if frames == [] then [] else
      var n := |frames| - 1;
      Project(frames[..n], srcId) + if frames[n].srcId == srcId then [frames[n].seqNo] else []
  }

  /** A window that hears one sender and nobody else. */
  function Solo(seqNos: seq<nat>): Option<Window>
    decreases |seqNos|, 0
  {
    if seqNos == [] then None else Some(SoloJudge(seqNos[..|seqNos| - 1], seqNos[|seqNos| - 1]).0)
  }

  function SoloJudge(before: seq<nat>, seqNo: nat): (Window, Verdict)
    decreases |before|, 1
  {
    match Solo(before)
    case None => (FirstHeard(seqNo), Accepted)
    case Some(w) => Judge(w, seqNo)
  }

  function Sources(frames: seq<Heard>): set<nat> {
    set f | f in frames :: f.srcId
  }

  /** One sender's entry in the table is the window of its own stream run alone. */
  predicate Tracks(frames: seq<Heard>, peers: seq<Peer>, src: nat) {
    var k := Find(peers, src);
    if src in Sources(frames) then k < |peers| && Some(peers[k].window) == Solo(Project(frames, src))
    else k == |peers| && Project(frames, src) == []
  }

  ghost predicate Separate(frames: seq<Heard>, peers: seq<Peer>) {
    |peers| == |Sources(frames)| && forall src :: Tracks(frames, peers, src)
  }

  /** With at most eight senders, each one's verdicts are those of its own stream run alone. */
  lemma {:induction false} SendersAreSeparate(frames: seq<Heard>)
    requires |Sources(frames)| <= PEERS
    ensures Separate(frames, RunTable(frames))
    ensures frames != [] ==>
              var n := |frames| - 1;
              var (_, v, evicted) := CheckTable(RunTable(frames[..n]), frames[n].srcId, frames[n].seqNo, frames[n].at);
              v == SoloJudge(Project(frames[..n], frames[n].srcId), frames[n].seqNo).1 && !evicted
    decreases |frames|
  {
    hide Judge, Find, Oldest;
    if frames == [] {
      assert Sources(frames) == {};
    } else {
      var n := |frames| - 1;
      var before, f := frames[..n], frames[n];
      assert frames == before + [f];
      assert Sources(frames) == Sources(before) + {f.srcId};
      UnionNoSmaller(Sources(before), f.srcId);
      SendersAreSeparate(before);
      SeparateStep(before, RunTable(before), f);
    }
  }

  lemma UnionNoSmaller(s: set<nat>, x: nat)
    ensures |s| <= |s + {x}|
  {
    if x in s {
      assert s + {x} == s;
    }
  }

  lemma SeparateStep(before: seq<Heard>, peers: seq<Peer>, f: Heard)
    requires Separate(before, peers) && |Sources(before + [f])| <= PEERS
    ensures var (peers', v, evicted) := CheckTable(peers, f.srcId, f.seqNo, f.at);
            && Separate(before + [f], peers')
            && v == SoloJudge(Project(before, f.srcId), f.seqNo).1 && !evicted
  {
    hide Judge, Find, Oldest, Solo, Project, Sources;
    SourcesSnoc(before, f);
    assert Tracks(before, peers, f.srcId);
    if f.srcId in Sources(before) {
      assert Sources(before) + {f.srcId} == Sources(before);
    } else {
      SoloNone();
    }
    var peers' := CheckTable(peers, f.srcId, f.seqNo, f.at).0;
    forall src
      ensures Tracks(before + [f], peers', src)
    {
      assert Tracks(before, peers, src);
      TracksStep(before, peers, f, src);
    }
  }

  lemma TracksStep(before: seq<Heard>, peers: seq<Peer>, f: Heard, src: nat)
    requires Tracks(before, peers, f.srcId) && Tracks(before, peers, src)
    requires f.srcId in Sources(before) || |peers| < PEERS
    ensures Tracks(before + [f], CheckTable(peers, f.srcId, f.seqNo, f.at).0, src)
  {
    hide Judge, Find, Oldest, Solo, Project, Sources;
    SourcesSnoc(before, f);
    ProjectSnoc(before, f, src);
    SoloSnoc(Project(before, f.srcId), f.seqNo);
    SoloNone();
    assert Project(before, src) + [] == Project(before, src);
    var k := Find(peers, f.srcId);
    var peers' := CheckTable(peers, f.srcId, f.seqNo, f.at).0;
    if f.srcId in Sources(before) {
      FindUpdate(peers, k, peers'[k], src);
    } else {
      FindSnoc(peers, peers'[|peers|], src);
    }
  }

  lemma SourcesSnoc(before: seq<Heard>, f: Heard)
    ensures Sources(before + [f]) == Sources(before) + {f.srcId}
  {
  }

  lemma {:induction false} FindUpdate(peers: seq<Peer>, k: nat, p: Peer, src: nat)
    requires k < |peers| && p.srcId == peers[k].srcId
    ensures Find(peers[k := p], src) == Find(peers, src)
  {
    if k > 0 {
      assert peers[k := p][1..] == peers[1..][k - 1 := p];
      FindUpdate(peers[1..], k - 1, p, src);
    }
  }

  lemma {:induction false} FindSnoc(peers: seq<Peer>, p: Peer, src: nat)
    ensures Find(peers + [p], src) ==
            if Find(peers, src) < |peers| then Find(peers, src) else if p.srcId == src then |peers| else |peers| + 1
  {
    if peers != [] {
      assert (peers + [p])[1..] == peers[1..] + [p];
      FindSnoc(peers[1..], p, src);
    }
  }

  lemma SoloSnoc(before: seq<nat>, seqNo: nat)
    ensures Solo(before + [seqNo]) == Some(SoloJudge(before, seqNo).0)
  {
    assert (before + [seqNo])[..|before|] == before;
  }

  lemma SoloNone()
    ensures Solo([]) == None
  {
  }

  lemma ProjectSnoc(before: seq<Heard>, f: Heard, src: nat)
    ensures Project(before + [f], src) == Project(before, src) + if src == f.srcId then [f.seqNo] else []
  {
    assert (before + [f])[..|before|] == before;
  }

  // ---- who gives way ------------------------------------------------------------------

  /** When a sender was last heard, whatever the verdict. */
  function LastHeard(frames: seq<Heard>, src: nat): int
    requires src in Sources(frames)
  {
    var n := |frames| - 1;
    assert frames == frames[..n] + [frames[n]];
    if frames[n].srcId == src then frames[n].at else LastHeard(frames[..n], src)
  }

  predicate InTable(peers: seq<Peer>, src: nat) {
    exists k :: 0 <= k < |peers| && peers[k].srcId == src
  }

  /** The table holds senders last heard no earlier than any it has forgotten, each once, with that time. */
  ghost predicate MostRecent(frames: seq<Heard>, peers: seq<Peer>) {
    && |peers| <= 8
    && (forall j, k :: 0 <= j < k < |peers| ==> peers[j].srcId != peers[k].srcId)
    && (forall k :: 0 <= k < |peers| ==> peers[k].srcId in Sources(frames) && peers[k].heardUs == LastHeard(frames, peers[k].srcId))
    && (forall src :: src in Sources(frames) && !InTable(peers, src) ==>
          |peers| == 8 && forall k :: 0 <= k < |peers| ==> LastHeard(frames, src) <= peers[k].heardUs)
  }

  predicate Forward(frames: seq<Heard>) {
    forall i, j :: 0 <= i <= j < |frames| ==> frames[i].at <= frames[j].at
  }

  lemma {:induction false} HeardBy(frames: seq<Heard>, src: nat, at: int)
    requires src in Sources(frames) && forall i :: 0 <= i < |frames| ==> frames[i].at <= at
    ensures LastHeard(frames, src) <= at
  {
    var n := |frames| - 1;
    assert frames == frames[..n] + [frames[n]];
    if frames[n].srcId != src {
      HeardBy(frames[..n], src, at);
    }
  }

  lemma LastHeardSnoc(frames: seq<Heard>, f: Heard, src: nat)
    requires src in Sources(frames + [f])
    ensures src == f.srcId || src in Sources(frames)
    ensures LastHeard(frames + [f], src) == if src == f.srcId then f.at else LastHeard(frames, src)
  {
    assert (frames + [f])[..|frames|] == frames;
  }

  /** Over any run with a clock that does not go back, the sender that gives way is one heard from longest ago. */
  lemma {:induction false} LeastRecentGivesWay(frames: seq<Heard>)
    requires Forward(frames)
    ensures MostRecent(frames, RunTable(frames))
  {
    hide CheckTable;
    if frames != [] {
      var n := |frames| - 1;
      LeastRecentGivesWay(frames[..n]);
      assert frames == frames[..n] + [frames[n]];
      assert forall i :: 0 <= i < n ==> frames[..n][i].at <= frames[n].at;
      MostRecentStep(frames[..n], RunTable(frames[..n]), frames[n]);
    }
  }

  lemma MostRecentStep(frames: seq<Heard>, peers: seq<Peer>, f: Heard)
    requires MostRecent(frames, peers) && forall i :: 0 <= i < |frames| ==> frames[i].at <= f.at
    ensures MostRecent(frames + [f], CheckTable(peers, f.srcId, f.seqNo, f.at).0)
  {
    hide Judge, Find, Oldest, LastHeard, Sources;
    SourcesSnoc(frames, f);
    var peers' := CheckTable(peers, f.srcId, f.seqNo, f.at).0;
    forall src | src in Sources(frames + [f])
      ensures LastHeard(frames + [f], src) == if src == f.srcId then f.at else LastHeard(frames, src)
      ensures src in Sources(frames) ==> LastHeard(frames, src) <= f.at
    {
      LastHeardSnoc(frames, f, src);
      if src in Sources(frames) { HeardBy(frames, src, f.at); }
    }
    var slot := ChangedSlot(peers, f);
    assert peers'[slot] == Peer(f.srcId, peers'[slot].window, f.at);
    assert forall k :: 0 <= k < |peers| && k != slot ==> peers'[k] == peers[k] && peers[k].srcId != f.srcId;
    forall src | src in Sources(frames + [f]) && !InTable(peers', src)
      ensures |peers'| == 8 && forall k :: 0 <= k < |peers'| ==> LastHeard(frames + [f], src) <= peers'[k].heardUs
    {
      assert src != f.srcId;
      if InTable(peers, src) {
        assert slot < |peers| && peers[slot].srcId == src && peers[slot].heardUs == LastHeard(frames, src);
      }
    }
  }

  /** The one slot a frame writes: its sender's, the next free one, or the longest unheard one. */
  lemma ChangedSlot(peers: seq<Peer>, f: Heard) returns (slot: nat)
    requires |peers| <= 8 && forall j, k :: 0 <= j < k < |peers| ==> peers[j].srcId != peers[k].srcId
    ensures var peers' := CheckTable(peers, f.srcId, f.seqNo, f.at).0;
            && slot < |peers'| && |peers| <= |peers'| <= 8 && (|peers'| > |peers| ==> slot == |peers| == |peers'| - 1)
            && peers'[slot].srcId == f.srcId && peers'[slot].heardUs == f.at
            && (forall k :: 0 <= k < |peers| && k != slot ==> peers'[k] == peers[k] && peers[k].srcId != f.srcId)
            && (slot < |peers| && peers[slot].srcId != f.srcId ==>
                  |peers| == 8 && forall k :: 0 <= k < |peers| ==> peers[slot].heardUs <= peers[k].heardUs)
            && (slot == |peers| ==> forall k :: 0 <= k < |peers| ==> peers[k].srcId != f.srcId)
  {
    hide Judge, FirstHeard;
    var k := Find(peers, f.srcId);
    slot := if k < |peers| then k else if |peers| < PEERS then |peers| else Oldest(peers, |peers|);
  }

  // ---- a whole stream of one sender ---------------------------------------------------

  /** The ids as they go on the wire. */
  function OnWire(ids: seq<int>): seq<nat> {
    seq(|ids|, i requires 0 <= i < |ids| => ids[i] % SEQS)
  }

  /** The unbounded rule run over a stream. */
  function IdealRun(ids: seq<int>): Ideal
    requires ids != []
  {
    var n := |ids| - 1;
    if n == 0 then Ideal(ids[0], {ids[0]}) else IdealJudge(IdealRun(ids[..n]), ids[n])
  }

  /** Every id is within 128 behind and 127 ahead of the newest accepted before it. */
  predicate InRange(ids: seq<int>) {
    |ids| <= 1 ||
    var n := |ids| - 1;
    InRange(ids[..n]) && -128 <= ids[n] - IdealRun(ids[..n]).newest <= 127
  }

  /** What the window over 8-bit numbers lets through. */
  function LetThrough(ids: seq<int>): seq<int> {
    if ids == [] then [] else
      var n := |ids| - 1;
      LetThrough(ids[..n]) + if SoloJudge(OnWire(ids[..n]), ids[n] % SEQS).1 == Accepted then [ids[n]] else []
  }

  /**
   * Over a stream of any length and any number of wraps the window lets through exactly what
   * the unbounded rule lets through, and no id twice.
   */
  lemma {:induction false} StreamRefines(ids: seq<int>)
    requires ids != [] && InRange(ids)
    ensures Solo(OnWire(ids)).Some? && Represents(Solo(OnWire(ids)).value, IdealRun(ids))
    ensures forall id :: id in LetThrough(ids) <==> id in IdealRun(ids).seen
    ensures forall i, j :: 0 <= i < j < |LetThrough(ids)| ==> LetThrough(ids)[i] != LetThrough(ids)[j]
  {
    hide Judge;
    var n := |ids| - 1;
    assert OnWire(ids)[..n] == OnWire(ids[..n]);
    if n == 0 {
      FirstHeardRepresents(ids[0]);
      assert OnWire(ids[..n]) == [] && OnWire(ids) == [ids[0] % SEQS];
      SoloSnoc([], ids[0] % SEQS);
      assert [] + [ids[0] % SEQS] == [ids[0] % SEQS];
      assert LetThrough(ids[..n]) == [];
      assert LetThrough(ids) == [ids[0]];
    } else {
      StreamRefines(ids[..n]);
      JudgeRefines(Solo(OnWire(ids[..n])).value, IdealRun(ids[..n]), ids[n]);
    }
  }
}
