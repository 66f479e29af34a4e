/**
 * The byte ring, one producer and one consumer, between the UART interrupt and the serial
 * task: free-running 16-bit counters over 2048 slots.
 */
module Ring {
  import opened Bytes

  const SIZE := 2048
  const COUNTER := 0x1_0000

  /** Modular subtraction of free-running counters. */
  function CountOf(head: nat, tail: nat): nat {
    (head - tail) % COUNTER
  }

  // ---- both sides interleaved -------------------------------------------------------

  /** The producer between calls, or part-way through one: snapshot taken, bytes being copied, head published. */
  datatype Producer = Ready | Copying(src: seq<byte>, accepted: nat, copied: nat) | Published

  /** The consumer between calls, or part-way through one. */
  datatype Consumer = Waiting | Taking(taken: nat, got: seq<byte>)

  /**
   * The shared ring, the progress of each side, and the history: every byte accepted so far
   * (published or about to be), how many were offered, and everything the consumer released.
   */
  datatype State = State(data: seq<byte>, head: nat, tail: nat, overrun: nat, hwm: nat,
                         producer: Producer, consumer: Consumer,
                         accepted: seq<byte>, offered: nat, output: seq<byte>)

  /** One atomic step of one side. */
  datatype Action = PushBegin(src: seq<byte>) | PushCopy | PushPublish | PushNote | PopBegin(cap: nat) | PopCopy | PopPublish

  /** What a step does; a step its side is not ready for does nothing. */
  function Next(s: State, a: Action): (t: State)
    requires |s.data| == SIZE
    ensures |t.data| == SIZE
  {
    match a
    case PushBegin(src) =>
      if !s.producer.Ready? then s else
        var n := Min(|src|, (SIZE - CountOf(s.head, s.tail)) % COUNTER);
        var s1 := s.(overrun := s.overrun + (|src| - n), offered := s.offered + |src|, accepted := s.accepted + src[..n]);
        if n == 0 then s1 else s1.(producer := Copying(src, n, 0))
    case PushCopy =>
      if !s.producer.Copying? || s.producer.copied >= s.producer.accepted || s.producer.copied >= |s.producer.src| then s else
        var k := s.producer.copied;
        s.(data := s.data[(s.head + k) % SIZE := s.producer.src[k]], producer := s.producer.(copied := k + 1))
    case PushPublish =>
      if !s.producer.Copying? || s.producer.copied < s.producer.accepted then s
      else s.(head := (s.head + s.producer.accepted) % COUNTER, producer := Published)
    case PushNote =>
      if !s.producer.Published? then s
      else s.(hwm := Max(s.hwm, CountOf(s.head, s.tail)), producer := Ready)
    case PopBegin(cap) =>
      var n := Min(cap, CountOf(s.head, s.tail));
      if !s.consumer.Waiting? || n == 0 then s else s.(consumer := Taking(n, []))
    case PopCopy =>
      if !s.consumer.Taking? || |s.consumer.got| >= s.consumer.taken then s
      else s.(consumer := s.consumer.(got := s.consumer.got + [s.data[(s.tail + |s.consumer.got|) % SIZE]]))
    case PopPublish =>
      if !s.consumer.Taking? || |s.consumer.got| < s.consumer.taken then s
      else s.(tail := (s.tail + s.consumer.taken) % COUNTER, output := s.output + s.consumer.got, consumer := Waiting)
  }

  function Init(data: seq<byte>): State {
    State(data, 0, 0, 0, 0, Ready, Waiting, [], 0, [])
  }

  /** Bytes the producer has claimed slots for but not published. */
  function InFlight(s: State): nat {
    if s.producer.Copying? then s.producer.accepted else 0
  }

  /** Bytes ever published: the unbounded counter `head` stands for. */
  function PublishedCount(s: State): int {
    |s.accepted| - InFlight(s)
  }

  /** Bytes written so far, published or not. */
  function Written(s: State): int {
    PublishedCount(s) + if s.producer.Copying? then s.producer.copied else 0
  }

  ghost predicate Inv(s: State) {
    var p, c := PublishedCount(s), |s.output|;
    && |s.data| == SIZE
    && c <= p <= p + InFlight(s) <= c + SIZE
    && s.head == p % COUNTER && s.tail == c % COUNTER
    && s.output == s.accepted[..c]
    && (s.producer.Copying? ==>
          && s.producer.copied <= s.producer.accepted <= |s.producer.src|
          && s.accepted[p..] == s.producer.src[..s.producer.accepted])
    && (s.consumer.Taking? ==>
          && |s.consumer.got| <= s.consumer.taken <= p - c
          && s.consumer.got == s.accepted[c..c + |s.consumer.got|])
    && (forall j :: c <= j < Written(s) ==> s.data[j % SIZE] == s.accepted[j])
    && s.offered == |s.accepted| + s.overrun
    && s.hwm <= SIZE
  }

  /** Slots within one ring's length of each other are different slots. */
  lemma SlotsDiffer(i: nat, j: nat)
    requires i < j < i + SIZE
    ensures i % SIZE != j % SIZE
  {
  }

  /** The counters' wrap is invisible: the ring size divides the counter range. */
  lemma WrapInvisible(n: nat, k: nat)
    ensures (n % COUNTER + k) % SIZE == (n + k) % SIZE
  {
  }

  lemma CountIs(p: nat, c: nat)
    requires c <= p <= c + SIZE
    ensures CountOf(p % COUNTER, c % COUNTER) == p - c
  {
  }

  lemma PushBeginKeeps(s: State, src: seq<byte>)
    requires Inv(s)
    ensures Inv(Next(s, PushBegin(src)))
  {
    hide CountOf;
    if s.producer.Ready? {
      var p, c := |s.accepted|, |s.output|;
      CountIs(p, c);
      var t := Next(s, PushBegin(src));
      assert t.accepted[..c] == s.accepted[..c];
      if t.producer.Copying? {
        assert t.accepted[p..] == src[..t.producer.accepted];
      }
    }
  }

  lemma PushCopyKeeps(s: State)
    requires Inv(s)
    ensures Inv(Next(s, PushCopy))
  {
    if s.producer.Copying? && s.producer.copied < s.producer.accepted {
      var p, c, k := PublishedCount(s), |s.output|, s.producer.copied;
      var t := Next(s, PushCopy);
      WrapInvisible(p, k);
      assert s.accepted[p + k] == s.accepted[p..][k] == s.producer.src[k];
      forall j | c <= j < p + k + 1
        ensures t.data[j % SIZE] == t.accepted[j]
      {
        if j < p + k {
          SlotsDiffer(j, p + k);
        }
      }
    }
  }

  lemma PushPublishKeeps(s: State)
    requires Inv(s)
    ensures Inv(Next(s, PushPublish))
  {
    CounterAdd(|s.accepted| - InFlight(s), InFlight(s));
  }

  lemma PushNoteKeeps(s: State)
    requires Inv(s)
    ensures Inv(Next(s, PushNote))
  {
    if s.producer.Published? {
      CountIs(|s.accepted|, |s.output|);
    }
  }

  lemma PopBeginKeeps(s: State, cap: nat)
    requires Inv(s)
    ensures Inv(Next(s, PopBegin(cap)))
  {
    hide CountOf;
    CountIs(PublishedCount(s), |s.output|);
  }

  lemma PopCopyKeeps(s: State)
    requires Inv(s)
    ensures Inv(Next(s, PopCopy))
  {
    if s.consumer.Taking? && |s.consumer.got| < s.consumer.taken {
      var c, k := |s.output|, |s.consumer.got|;
      WrapInvisible(c, k);
      assert s.data[(c + k) % SIZE] == s.accepted[c + k];
    }
  }

  lemma PopPublishKeeps(s: State)
    requires Inv(s)
    ensures Inv(Next(s, PopPublish))
  {
    if s.consumer.Taking? && |s.consumer.got| == s.consumer.taken {
      var c, n := |s.output|, s.consumer.taken;
      CounterAdd(c, n);
      assert s.accepted[..c] + s.accepted[c..c + n] == s.accepted[..c + n];
    }
  }

  lemma CounterAdd(n: nat, k: nat)
    ensures (n % COUNTER + k) % COUNTER == (n + k) % COUNTER
  {
  }

  lemma NextKeeps(s: State, a: Action)
    requires Inv(s)
    ensures Inv(Next(s, a))
  {
    hide Inv;
    match a
    case PushBegin(src) => PushBeginKeeps(s, src);
    case PushCopy => PushCopyKeeps(s);
    case PushPublish => PushPublishKeeps(s);
    case PushNote => PushNoteKeeps(s);
    case PopBegin(cap) => PopBeginKeeps(s, cap);
    case PopCopy => PopCopyKeeps(s);
    case PopPublish => PopPublishKeeps(s);
  }

  /** An interleaving: any sequence of steps of either side. */
  function Run(s: State, actions: seq<Action>): (t: State)
    requires |s.data| == SIZE
    ensures |t.data| == SIZE
    decreases |actions|
  {
    if actions == [] then s else Run(Next(s, actions[0]), actions[1..])
  }

  /** Every interleaving keeps the ring's account. */
  lemma {:induction false} RunKeeps(s: State, actions: seq<Action>)
    requires Inv(s)
    ensures Inv(Run(s, actions))
    decreases |actions|
  {
    hide Inv, Next;
    if actions != [] {
      InvHasData(s);
      NextKeeps(s, actions[0]);
      RunKeeps(Next(s, actions[0]), actions[1..]);
    }
  }

  lemma InvHasData(s: State)
    requires Inv(s)
    ensures |s.data| == SIZE
  {
  }

  /**
   * Under every interleaving, through any number of counter wraps: what came out is what was
   * accepted, in order, up to a point; and every byte offered was accepted or counted lost.
   */
  lemma FifoUnderEveryInterleaving(data: seq<byte>, actions: seq<Action>)
    requires |data| == SIZE
    ensures var t := Run(Init(data), actions);
            Inv(t) && t.output <= t.accepted && t.offered == |t.accepted| + t.overrun && |t.accepted| - |t.output| <= SIZE && t.hwm <= SIZE
  {
    hide Next;
    RunKeeps(Init(data), actions);
    var t := Run(Init(data), actions);
    assert t.output == t.accepted[..|t.output|];
  }

  /** No step touches a slot holding a byte that is published and not yet released. */
  lemma UnreadSlotsUntouched(s: State, a: Action, j: nat)
    requires Inv(s) && |s.output| <= j < PublishedCount(s)
    ensures |Next(s, a).data| == SIZE && Next(s, a).data[j % SIZE] == s.data[j % SIZE]
  {
    if a.PushCopy? && s.producer.Copying? && s.producer.copied < s.producer.accepted {
      var p, k := PublishedCount(s), s.producer.copied;
      WrapInvisible(p, k);
      SlotsDiffer(j, p + k);
    }
  }

  lemma {:induction false} DrainCopies(s: State, n: nat)
    requires Inv(s) && s.consumer.Taking? && |s.consumer.got| + n <= s.consumer.taken
    ensures var t := Run(s, seq(n, _ => PopCopy));
            && t.producer == s.producer && t.accepted == s.accepted && t.output == s.output
            && t.consumer.Taking? && t.consumer.taken == s.consumer.taken && |t.consumer.got| == |s.consumer.got| + n
    decreases n
  {
    var copies := seq(n, _ => PopCopy);
    if n > 0 {
      NextKeeps(s, PopCopy);
      assert copies[1..] == seq(n - 1, _ => PopCopy);
      DrainCopies(Next(s, PopCopy), n - 1);
    }
  }

  lemma {:induction false} RunConcat(s: State, a: seq<Action>, b: seq<Action>)
    requires |s.data| == SIZE
    ensures Run(s, a + b) == Run(Run(s, a), b)
    decreases |a|
  {
    hide Next;
    if a == [] {
      assert a + b == b;
    } else {
      assert (a + b)[1..] == a[1..] + b;
      RunConcat(Next(s, a[0]), a[1..], b);
    }
  }

  /** Nothing is lost inside the ring: one bulk pop, run to its end, releases all that was published. */
  lemma PopReleasesAll(s: State, n: nat)
    requires Inv(s) && s.consumer.Waiting? && n == PublishedCount(s) - |s.output| > 0
    ensures var t := Run(s, [PopBegin(n)] + seq(n, _ => PopCopy) + [PopPublish]);
            t.output == s.accepted[..PublishedCount(s)] && t.accepted == s.accepted
  {
    var copies := seq(n, _ => PopCopy);
    PopBegins(s, n);
    var taking := Next(s, PopBegin(n));
    DrainCopies(taking, n);
    RunKeeps(taking, copies);
    var full := Run(taking, copies);
    PopEnds(full);
    hide Next, Inv;
    RunOne(s, PopBegin(n));
    RunConcat(s, [PopBegin(n)], copies);
    RunConcat(s, [PopBegin(n)] + copies, [PopPublish]);
    RunOne(full, PopPublish);
  }

  lemma RunOne(s: State, a: Action)
    requires |s.data| == SIZE
    ensures Run(s, [a]) == Next(s, a)
  {
    hide Next;
    assert [a][1..] == [];
  }

  lemma PopBegins(s: State, n: nat)
    requires Inv(s) && s.consumer.Waiting? && n == PublishedCount(s) - |s.output| > 0
    ensures Next(s, PopBegin(n)) == s.(consumer := Taking(n, [])) && Inv(Next(s, PopBegin(n)))
  {
    NextKeeps(s, PopBegin(n));
    CountIs(PublishedCount(s), |s.output|);
  }

  lemma PopEnds(s: State)
    requires Inv(s) && s.consumer.Taking? && |s.consumer.got| == s.consumer.taken
    ensures var t := Next(s, PopPublish);
            Inv(t) && t.accepted == s.accepted && t.output == s.accepted[..|s.output| + s.consumer.taken]
  {
    NextKeeps(s, PopPublish);
  }

  // ---- one side at a time -----------------------------------------------------------

  class ByteRing {
    const data: array<byte>
    var head: nat
    var tail: nat
    var overrun: nat
    var hwm: nat

    ghost predicate Valid()
      reads this
    {
      data.Length == SIZE && head < COUNTER && tail < COUNTER && CountOf(head, tail) <= SIZE
    }

    /** The bytes waiting, oldest first. */
    ghost function Contents(): (s: seq<byte>)
      reads this, data
      requires Valid()
    {
      Window(data[..], tail, CountOf(head, tail))
    }

    constructor ()
      ensures Valid() && Contents() == [] && overrun == 0 && hwm == 0 && fresh(data)
    {
      data := new byte[SIZE](_ => 0);
      head, tail, overrun, hwm := 0, 0, 0, 0;
    }

    method Count() returns (n: nat)
      requires Valid()
      ensures n == |Contents()|
    {
      n := CountOf(head, tail);
    }

    method NoteOccupancy()
      requires Valid()
      modifies this`hwm
      ensures hwm == Max(old(hwm), |Contents()|)
    {
      var used := CountOf(head, tail);
      if used > hwm { hwm := used; }
    }

    method Push(b: byte) returns (ok: bool)
      requires Valid()
      modifies this, data
      ensures Valid() && ok == (|old(Contents())| < SIZE)
      ensures Contents() == if ok then old(Contents()) + [b] else old(Contents())
      ensures overrun == old(overrun) + if ok then 0 else 1
      ensures hwm == if ok then Max(old(hwm), |Contents()|) else old(hwm)
    {
      if CountOf(head, tail) >= SIZE {
        overrun := overrun + 1;
        return false;
      }
      ghost var before := data[..];
      data[head % SIZE] := b;
      WindowExtend(before, data[..], tail, head, [b]);
      head := (head + 1) % COUNTER;
      NoteOccupancy();
      return true;
    }

    /** Appends as much as fits, in at most two copies, and counts the rest as lost. */
    method PushBytes(src: seq<byte>) returns (accepted: nat)
      requires Valid() && |src| < COUNTER
      modifies this, data
      ensures Valid() && accepted == Min(|src|, SIZE - |old(Contents())|)
      ensures Contents() == old(Contents()) + src[..accepted]
      ensures overrun == old(overrun) + (|src| - accepted)
      ensures hwm == if accepted > 0 then Max(old(hwm), |Contents()|) else old(hwm)
    {
      hide CountOf, Window, WrittenAt, Slot;
      var space := SIZE - CountOf(head, tail);
      accepted := if |src| > space then space else |src|;
      if accepted < |src| { overrun := overrun + (|src| - accepted); }
      if accepted == 0 { return; }

      ghost var before := data[..];
      CopyRound(src[..accepted]);
      WindowExtend(before, data[..], tail, head, src[..accepted]);
      head := (head + accepted) % COUNTER;
      NoteOccupancy();
    }

    /** Fills the slots from `head` on, in one copy or, where the buffer ends in between, two. */
    method CopyRound(src: seq<byte>)
      requires Valid() && 0 < |src| <= SIZE
      modifies data
      ensures forall k: nat :: k < SIZE ==> data[k] == WrittenAt(old(data[..]), head, src, k)
    {
      hide CountOf, Window, WrittenAt, Slot;
      ghost var before := data[..];
      var start := head % SIZE;
      var first := if SIZE - start < |src| then SIZE - start else |src|;
      CopyInto(src[..first], data, start);
      ghost var between := data[..];
      assert between == before[..start] + src[..first] + before[start + first..];
      CopyInto(src[first..], data, 0);
      assert data[..] == src[first..] + between[|src| - first..];
      TwoCopies(before, between, data[..], head, src, first);
    }

    method Pop() returns (ok: bool, b: byte)
      requires Valid()
      modifies this`tail
      ensures Valid() && ok == (old(Contents()) != [])
      ensures ok ==> [b] + Contents() == old(Contents())
      ensures !ok ==> Contents() == old(Contents())
    {
      if CountOf(head, tail) == 0 { return false, 0; }
      WindowShrink(data[..], head, tail, 1);
      b := data[tail % SIZE];
      tail := (tail + 1) % COUNTER;
      ok := true;
    }

    /** Removes up to `cap` bytes, in at most two copies. */
    method PopBytes(dst: array<byte>, cap: nat) returns (taken: nat)
      requires Valid() && cap <= dst.Length && dst != data
      modifies this`tail, dst
      ensures Valid() && taken == Min(cap, |old(Contents())|)
      ensures dst[..taken] == old(Contents())[..taken] && dst[taken..] == old(dst[taken..])
      ensures Contents() == old(Contents())[taken..]
    {
      hide CountOf, Window, Slot;
      var available := CountOf(head, tail);
      taken := if cap < available then cap else available;
      if taken == 0 { return; }
      var start := tail % SIZE;
      var first := if SIZE - start < taken then SIZE - start else taken;
      WindowShrink(data[..], head, tail, taken);
      CopyInto(data[start..start + first], dst, 0);
      CopyInto(data[..taken - first], dst, first);
      WindowWraps(data[..], tail, taken, first);
      assert dst[..taken] == data[start..start + first] + data[..taken - first];
      tail := (tail + taken) % COUNTER;
    }
  }

  /** The slot `i` past a counter. */
  function Slot(counter: nat, i: nat): (k: nat)
    ensures k < SIZE
  {
    (counter + i) % SIZE
  }

  function Window(data: seq<byte>, tail: nat, n: nat): (s: seq<byte>)
    requires |data| == SIZE
    ensures |s| == n
  {
    seq(n, i requires 0 <= i => data[Slot(tail, i)])
  }

  /** Writing past the waiting bytes extends them. */
  lemma WindowExtend(before: seq<byte>, after: seq<byte>, tail: nat, head: nat, src: seq<byte>)
    requires |before| == |after| == SIZE && head < COUNTER && tail < COUNTER
    requires CountOf(head, tail) + |src| <= SIZE
    requires forall k: nat :: k < SIZE ==> after[k] == WrittenAt(before, head, src, k)
    ensures CountOf((head + |src|) % COUNTER, tail) == CountOf(head, tail) + |src|
    ensures Window(after, tail, CountOf(head, tail) + |src|) == Window(before, tail, CountOf(head, tail)) + src
  {
    hide CountOf, WrittenAt, Slot;
    var n := CountOf(head, tail);
    CountExtend(head, tail, |src|);
    forall i: nat | i < n + |src|
      ensures after[Slot(tail, i)] == if i < n then before[Slot(tail, i)] else src[i - n]
    {
      SlotExtend(before, tail, head, src, i);
    }
  }

  lemma CountExtend(head: nat, tail: nat, k: nat)
    requires head < COUNTER && tail < COUNTER && CountOf(head, tail) + k <= SIZE
    ensures CountOf((head + k) % COUNTER, tail) == CountOf(head, tail) + k
  {
  }

  lemma SlotExtend(before: seq<byte>, tail: nat, head: nat, src: seq<byte>, i: nat)
    requires |before| == SIZE && head < COUNTER && tail < COUNTER
    requires CountOf(head, tail) + |src| <= SIZE && i < CountOf(head, tail) + |src|
    ensures var n := CountOf(head, tail);
            WrittenAt(before, head, src, Slot(tail, i)) == if i < n then before[Slot(tail, i)] else src[i - n]
  {
    var n := CountOf(head, tail);
    HeadIsTailPlusCount(head, tail);
    SlotDistance(tail, i, head, i - n);
  }

  lemma HeadIsTailPlusCount(head: nat, tail: nat)
    requires head < COUNTER && tail < COUNTER
    ensures head == tail + CountOf(head, tail) || head + COUNTER == tail + CountOf(head, tail)
  {
  }

  lemma SlotDistance(tail: nat, i: nat, head: nat, d: int)
    requires -SIZE <= d < SIZE && (tail + i == head + d || tail + i == head + d + COUNTER)
    ensures (Slot(tail, i) - head) % SIZE == if d < 0 then d + SIZE else d
  {
    assert ((tail + i) % SIZE - head) % SIZE == (tail + i - head) % SIZE;
  }

  /** Slot `k` after writing `src` from `head` on, round the ring. */
  function WrittenAt(before: seq<byte>, head: nat, src: seq<byte>, k: nat): byte
    requires |before| == SIZE && k < SIZE
  {
    var d := (k - head) % SIZE;
    if d < |src| then src[d] else before[k]
  }

  /** Two copies that meet at the buffer's end write the slots one round copy would. */
  lemma TwoCopies(before: seq<byte>, between: seq<byte>, after: seq<byte>, head: nat, src: seq<byte>, first: nat)
    requires |before| == |between| == |after| == SIZE && 0 < |src| <= SIZE
    requires var start := head % SIZE; first == Min(SIZE - start, |src|)
    requires var start := head % SIZE; between == before[..start] + src[..first] + before[start + first..]
    requires after == src[first..] + between[|src| - first..]
    ensures forall k :: 0 <= k < SIZE ==> after[k] == WrittenAt(before, head, src, k)
  {
    forall k | 0 <= k < SIZE
      ensures after[k] == WrittenAt(before, head, src, k)
    {
      var start := head % SIZE;
      if k >= start {
        assert (k - head) % SIZE == k - start;
      } else {
        assert (k - head) % SIZE == k - start + SIZE;
      }
    }
  }

  lemma WindowShrink(data: seq<byte>, head: nat, tail: nat, taken: nat)
    requires |data| == SIZE && head < COUNTER && tail < COUNTER && taken <= CountOf(head, tail) <= SIZE
    ensures CountOf(head, (tail + taken) % COUNTER) == CountOf(head, tail) - taken
    ensures Window(data, tail, CountOf(head, tail)) ==
            Window(data, tail, taken) + Window(data, (tail + taken) % COUNTER, CountOf(head, tail) - taken)
  {
    hide CountOf, Slot;
    CountShrink(head, tail, taken);
    forall k: nat | k >= taken
      ensures Slot(tail, k) == Slot((tail + taken) % COUNTER, k - taken)
    {
      SlotShift(tail, taken, k - taken);
    }
  }

  lemma CountShrink(head: nat, tail: nat, taken: nat)
    requires head < COUNTER && tail < COUNTER && taken <= CountOf(head, tail) <= SIZE
    ensures CountOf(head, (tail + taken) % COUNTER) == CountOf(head, tail) - taken
  {
  }

  lemma SlotShift(tail: nat, taken: nat, i: nat)
    ensures Slot(tail, taken + i) == Slot((tail + taken) % COUNTER, i)
  {
    WrapInvisible(tail + taken, i);
  }

  lemma WindowWraps(data: seq<byte>, tail: nat, taken: nat, first: nat)
    requires |data| == SIZE && taken <= SIZE && first == Min(SIZE - tail % SIZE, taken)
    ensures Window(data, tail, taken) == data[tail % SIZE..tail % SIZE + first] + data[..taken - first]
  {
    forall i: nat | i < taken
      ensures Slot(tail, i) == if i < first then tail % SIZE + i else i - first
    {
    }
  }

  // ---- how much each side takes -----------------------------------------------------------

  /** A push takes as many bytes as there are free slots, and counts the rest as lost. */
  lemma PushTakesWhatFits(s: State, src: seq<byte>)
    requires Inv(s) && s.producer.Ready?
    ensures var t := Next(s, PushBegin(src)); var n := Min(|src|, 2048 - (|s.accepted| - |s.output|));
            && t.accepted == s.accepted + src[..n] && t.overrun == s.overrun + |src| - n && t.offered == s.offered + |src|
            && (n > 0 ==> t.producer == Copying(src, n, 0)) && (n == 0 ==> t.producer.Ready?)
  {
    CountIs(|s.accepted|, |s.output|);
  }

  /** The high-water mark is raised to what is published and not yet released, if that is more. */
  lemma NoteIs(s: State)
    requires Inv(s) && s.producer.Published?
    ensures Next(s, PushNote).hwm == Max(s.hwm, |s.accepted| - |s.output|) && Next(s, PushNote).producer.Ready?
  {
    CountIs(|s.accepted|, |s.output|);
  }

  /** A pop takes as many bytes as it has room for and are published. */
  lemma PopTakesWhatIsThere(s: State, cap: nat)
    requires Inv(s) && s.consumer.Waiting?
    ensures var n := Min(cap, PublishedCount(s) - |s.output|);
            Next(s, PopBegin(cap)) == if n == 0 then s else s.(consumer := Taking(n, []))
  {
    CountIs(PublishedCount(s), |s.output|);
  }
}
