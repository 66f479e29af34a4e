/**
 * Fragmentation and reassembly of configs: up to eight 200-byte slices, one transaction
 * at a time, into a buffer that is reused and never cleared.
 */
module Fragment {
  import opened Bytes
  import opened Crc16

  const MAX_FRAGMENTS := 8
  const PAYLOAD_MAX := 200
  const CONFIG_MAX := 1600
  const HDR_SIZE := 8
  const TIMEOUT_US := 30_000_000
  const ERR_TOO_SHORT := -1
  const ERR_TOO_LONG := -5

  datatype Hdr = Hdr(cfgId: bv16, index: nat, total: nat, totalLen: nat, crcTotal: bv16)

  /** The header fields every fragment of a transaction repeats. */
  datatype Key = Key(cfgId: bv16, total: nat, totalLen: nat, crcTotal: bv16)

  function KeyOf(h: Hdr): Key {
    Key(h.cfgId, h.total, h.totalLen, h.crcTotal)
  }

  function HdrEncode(h: Hdr): (s: seq<byte>)
    requires h.index < 256 && h.total < 256 && h.totalLen < 0x1_0000
    ensures |s| == HDR_SIZE
  {
    [Hi(h.cfgId), Lo(h.cfgId), U8(h.index), U8(h.total), Hi8(h.totalLen), Lo8(h.totalLen), Hi(h.crcTotal), Lo(h.crcTotal)]
  }

  function HdrDecode(s: seq<byte>): (h: Hdr)
    requires |s| >= HDR_SIZE
    ensures h.index < 256 && h.total < 256 && h.totalLen < 0x1_0000
  {
    Hdr(Word16(s[0], s[1]), Val(s[2]), Val(s[3]), Be16(s[4], s[5]), Word16(s[6], s[7]))
  }

  /** Fragments a config needs: at least one, and none when it is too long to send. */
  function FragCount(totalLen: nat): nat {
    if totalLen > CONFIG_MAX then 0
    else if totalLen == 0 then 1
    else (totalLen + PAYLOAD_MAX - 1) / PAYLOAD_MAX
  }

  function SliceLen(totalLen: nat, index: nat): nat
    requires index * PAYLOAD_MAX <= totalLen
  {
    Min(totalLen - index * PAYLOAD_MAX, PAYLOAD_MAX)
  }

  function Slice(config: seq<byte>, index: nat): seq<byte>
    requires index * PAYLOAD_MAX <= |config|
  {
    config[index * PAYLOAD_MAX..index * PAYLOAD_MAX + SliceLen(|config|, index)]
  }

  lemma SliceInRange(totalLen: nat, index: nat)
    requires index < FragCount(totalLen)
    ensures index * PAYLOAD_MAX <= totalLen <= CONFIG_MAX && FragCount(totalLen) <= MAX_FRAGMENTS
  {
  }

  /** Fragment `index` of a config: header, then slice. */
  function Fragment(cfgId: bv16, index: nat, config: seq<byte>): seq<byte>
    requires index < FragCount(|config|)
  {
    SliceInRange(|config|, index);
    HdrEncode(Hdr(cfgId, index, FragCount(|config|), |config|, Crc(config))) + Slice(config, index)
  }

  method FragBuild(cfgId: bv16, index: nat, config: seq<byte>, out: array<byte>) returns (r: int)
    requires index < 256 && |config| < 0x1_0000
    modifies out
    ensures index >= FragCount(|config|) ==> r == ERR_TOO_LONG
    ensures index < FragCount(|config|) && out.Length < |Fragment(cfgId, index, config)| ==> r == ERR_TOO_SHORT
    ensures r < 0 ==> out[..] == old(out[..])
    ensures index < FragCount(|config|) && out.Length >= |Fragment(cfgId, index, config)|
            ==> r == |Fragment(cfgId, index, config)| && out[..r] == Fragment(cfgId, index, config) && out[r..] == old(out[r..])
  {
    hide HdrEncode, Crc, FragCount;
    var total := FragCount(|config|);
    if total == 0 || index >= total { return ERR_TOO_LONG; }
    SliceInRange(|config|, index);
    var offset := index * PAYLOAD_MAX;
    var slice := |config| - offset;
    if slice > PAYLOAD_MAX { slice := PAYLOAD_MAX; }
    if out.Length < HDR_SIZE + slice { return ERR_TOO_SHORT; }

    var crc := Crc16.Crc16(config);
    CopyInto(HdrEncode(Hdr(cfgId, index, total, |config|, crc)), out, 0);
    CopyInto(config[offset..offset + slice], out, HDR_SIZE);
    return HDR_SIZE + slice;
  }

  /** The host's splitter: every fragment of a config in order, or nothing of one too long. */
  method SplitConfig(cfgId: bv16, config: seq<byte>) returns (fragments: Option<seq<seq<byte>>>)
    ensures fragments.None? <==> |config| > CONFIG_MAX
    ensures fragments.Some? ==>
              && |fragments.value| == FragCount(|config|)
              && forall i :: 0 <= i < FragCount(|config|) ==> fragments.value[i] == Fragment(cfgId, i, config)
  {
    hide HdrEncode, Crc, Fragment;
    if |config| > CONFIG_MAX { return None; }
    var total := FragCount(|config|);
    var crc := Crc16.Crc16(config);
    var built: seq<seq<byte>> := [];
    for index := 0 to total
      invariant |built| == index && forall i :: 0 <= i < index ==> built[i] == Fragment(cfgId, i, config)
    {
      SliceInRange(|config|, index);
      var offset := index * PAYLOAD_MAX;
      var slice := config[offset..if offset + PAYLOAD_MAX < |config| then offset + PAYLOAD_MAX else |config|];
      FragmentIs(cfgId, index, config, slice);
      built := built + [HdrEncode(Hdr(cfgId, index, total, |config|, crc)) + slice];
    }
    return Some(built);
  }

  lemma FragmentIs(cfgId: bv16, index: nat, config: seq<byte>, slice: seq<byte>)
    requires index < FragCount(|config|) && index * PAYLOAD_MAX <= |config|
    requires slice == config[index * PAYLOAD_MAX..Min(index * PAYLOAD_MAX + PAYLOAD_MAX, |config|)]
    ensures Fragment(cfgId, index, config) == HdrEncode(Hdr(cfgId, index, FragCount(|config|), |config|, Crc(config))) + slice
  {
    hide HdrEncode, Crc;
  }

  /** The numbers of the header agree with each other and with the slice behind it. */
  predicate HeaderIsSane(h: Hdr, sliceLen: nat) {
    && 0 < h.total <= MAX_FRAGMENTS
    && h.index < h.total
    && h.totalLen <= CONFIG_MAX
    && FragCount(h.totalLen) == h.total
    && h.index * PAYLOAD_MAX <= h.totalLen
    && sliceLen == SliceLen(h.totalLen, h.index)
  }

  // ---- what reassembly means --------------------------------------------------------

  datatype Result = NeedMore | Complete(config: seq<byte>) | Duplicate | ErrHeader | ErrTooLarge | ErrForeign | ErrCrc

  /** The transaction in progress, if any: its key, when it began, and the slices stored. */
  datatype Slot = Free | Active(key: Key, firstUs: int, slices: map<nat, seq<byte>>)

  predicate Expired(slot: Slot, now: int) {
    slot.Active? && now - slot.firstUs >= TIMEOUT_US
  }

  /** The first `n` slices, in index order. */
  function Joined(slices: map<nat, seq<byte>>, n: nat): seq<byte>
    requires AllPresent(slices, n)
  {
    if n == 0 then [] else Joined(slices, n - 1) + slices[n - 1]
  }

  predicate AllPresent(slices: map<nat, seq<byte>>, total: nat) {
    forall k :: 0 <= k < total ==> k in slices
  }

  function Store(slot: Slot, index: nat, slice: seq<byte>): (Slot, Result)
    requires slot.Active?
  {
    if index in slot.slices then (slot, Duplicate) else
      var slices := slot.slices[index := slice];
      if !AllPresent(slices, slot.key.total) then (slot.(slices := slices), NeedMore)
      else
        var config := Joined(slices, slot.key.total);
        (Free, if Crc(config) == slot.key.crcTotal then Complete(config) else ErrCrc)
  }

  function FeedSlot(slot: Slot, payload: seq<byte>, now: int): (Slot, Result) {
    if |payload| < HDR_SIZE then (slot, ErrHeader) else
      var h := HdrDecode(payload);
      if h.totalLen > CONFIG_MAX then (slot, ErrTooLarge)
      else if !HeaderIsSane(h, |payload| - HDR_SIZE) then (slot, ErrHeader)
      else
        var current := if slot.Free? || Expired(slot, now) then Active(KeyOf(h), now, map[]) else slot;
        if KeyOf(h) != current.key then (current, ErrForeign)
        else Store(current, h.index, payload[HDR_SIZE..])
  }

  function TickSlot(slot: Slot, now: int): Slot {
    if Expired(slot, now) then Free else slot
  }

  // ---- the reassembler as it runs ---------------------------------------------------

  /** `1 << i`. */
  function BitMask(i: nat): byte
    requires i < MAX_FRAGMENTS
  {
    [1, 2, 4, 8, 16, 32, 64, 128][i]
  }

  /** The mask with the low `total` bits set. */
  function CompleteMask(total: nat): byte
    requires total <= MAX_FRAGMENTS
  {
    if total >= 8 then 0xFF else [0, 1, 3, 7, 15, 31, 63, 127][total]
  }

  predicate Marked(mask: byte, i: nat)
    requires i < MAX_FRAGMENTS
  {
    mask & BitMask(i) != 0
  }

  lemma MarkOne(mask: byte, i: nat, j: nat)
    requires i < MAX_FRAGMENTS && j < MAX_FRAGMENTS
    ensures Marked(mask | BitMask(i), j) <==> i == j || Marked(mask, j)
    ensures !Marked(0, j)
  {
  }

  lemma MaskComplete(mask: byte, total: nat)
    requires total <= MAX_FRAGMENTS && forall j :: total <= j < MAX_FRAGMENTS ==> !Marked(mask, j)
    ensures mask == CompleteMask(total) <==> forall j :: 0 <= j < total ==> Marked(mask, j)
  {
    if forall j :: 0 <= j < total ==> Marked(mask, j) {
      assert Marked(mask, 0) == (0 < total) && Marked(mask, 1) == (1 < total) && Marked(mask, 2) == (2 < total) && Marked(mask, 3) == (3 < total);
      assert Marked(mask, 4) == (4 < total) && Marked(mask, 5) == (5 < total) && Marked(mask, 6) == (6 < total) && Marked(mask, 7) == (7 < total);
      MaskFrom(mask, total);
    } else {
      var j :| 0 <= j < total && !Marked(mask, j);
      MaskHas(total, j);
    }
  }

  lemma MaskFrom(mask: byte, total: nat)
    requires total <= MAX_FRAGMENTS
    requires (mask & 1 != 0) == (0 < total) && (mask & 2 != 0) == (1 < total) && (mask & 4 != 0) == (2 < total) && (mask & 8 != 0) == (3 < total)
    requires (mask & 16 != 0) == (4 < total) && (mask & 32 != 0) == (5 < total) && (mask & 64 != 0) == (6 < total) && (mask & 128 != 0) == (7 < total)
    ensures mask == CompleteMask(total)
  {
    if total == 0 {} else if total == 1 {} else if total == 2 {} else if total == 3 {} else if total == 4 {}
    else if total == 5 {} else if total == 6 {} else if total == 7 {} else {}
  }

  lemma MaskHas(total: nat, j: nat)
    requires j < total <= MAX_FRAGMENTS
    ensures Marked(CompleteMask(total), j)
  {
  }

  datatype Code = NEED_MORE | COMPLETE | DUPLICATE | ERR_HEADER | ERR_TOO_LARGE | ERR_FOREIGN | ERR_CRC

  function CodeOf(r: Result): Code {
    match r
    case NeedMore => NEED_MORE
    case Complete(_) => COMPLETE
    case Duplicate => DUPLICATE
    case ErrHeader => ERR_HEADER
    case ErrTooLarge => ERR_TOO_LARGE
    case ErrForeign => ERR_FOREIGN
    case ErrCrc => ERR_CRC
  }

  /** Counters; they survive the end of a transaction. */
  datatype Stats = Stats(completed: nat, timeouts: nat, crcFail: nat, duplicates: nat, foreign: nat)

  function Count(s: Stats, code: Code): Stats {
    match code
    case COMPLETE => s.(completed := s.completed + 1)
    case ERR_CRC => s.(crcFail := s.crcFail + 1)
    case DUPLICATE => s.(duplicates := s.duplicates + 1)
    case ERR_FOREIGN => s.(foreign := s.foreign + 1)
    case _ => s
  }

  function CountTimeout(s: Stats, expired: bool): Stats {
    if expired then s.(timeouts := s.timeouts + 1) else s
  }

  /** The part of the buffer that belongs to one fragment. */
  function Piece(b: seq<byte>, totalLen: nat, i: nat): seq<byte>
    requires i * PAYLOAD_MAX <= totalLen <= |b|
  {
    b[i * PAYLOAD_MAX..i * PAYLOAD_MAX + SliceLen(totalLen, i)]
  }

  function Pieces(b: seq<byte>, totalLen: nat, total: nat, mask: byte): (m: map<nat, seq<byte>>)
    requires total == FragCount(totalLen) && totalLen <= CONFIG_MAX && |b| == CONFIG_MAX
  {
    map i: nat | i < total && Marked(mask, i) :: Piece(b, totalLen, i)
  }

  class Reassembler {
    const buf: array<byte>
    var cfgId: bv16
    var receivedMask: byte
    var expectedTotal: nat
    var totalLen: nat
    var crcExpected: bv16
    var firstFragUs: int
    var active: bool
    var stats: Stats

    ghost predicate Valid()
      reads this
    {
      && buf.Length == CONFIG_MAX
      && totalLen <= CONFIG_MAX
      && (active ==>
            && FragCount(totalLen) == expectedTotal
            && 0 < expectedTotal <= MAX_FRAGMENTS
            && forall j :: expectedTotal <= j < MAX_FRAGMENTS ==> !Marked(receivedMask, j))
    }

    ghost function View(): Slot
      reads this, buf
      requires Valid()
    {
      if !active then Free
      else Active(Key(cfgId, expectedTotal, totalLen, crcExpected), firstFragUs,
                  Pieces(buf[..], totalLen, expectedTotal, receivedMask))
    }

    constructor (buf: array<byte>)
      requires buf.Length == CONFIG_MAX
      ensures Valid() && View() == Free && this.buf == buf && stats == Stats(0, 0, 0, 0, 0)
    {
      this.buf := buf;
      cfgId, receivedMask, expectedTotal, totalLen, crcExpected, firstFragUs, active := 0, 0, 0, 0, 0, 0, false;
      stats := Stats(0, 0, 0, 0, 0);
    }

    /** Releases the slot; the buffer and the counters stay as they are. */
    method Reset()
      requires buf.Length == CONFIG_MAX
      modifies this
      ensures Valid() && View() == Free && receivedMask == 0 && stats == old(stats)
    {
      cfgId, receivedMask, expectedTotal, totalLen, crcExpected, firstFragUs, active := 0, 0, 0, 0, 0, 0, false;
    }

    /** Takes the slot for the transaction a fragment belongs to. */
    method Begin(hdr: Hdr, now: int)
      requires buf.Length == CONFIG_MAX && exists n: nat :: HeaderIsSane(hdr, n)
      modifies this
      ensures Valid() && active && stats == old(stats)
      ensures View() == Active(KeyOf(hdr), now, map[])
    {
      hide FragCount, Pieces, Marked;
      Reset();
      active := true;
      cfgId, expectedTotal, totalLen, crcExpected, firstFragUs := hdr.cfgId, hdr.total, hdr.totalLen, hdr.crcTotal, now;
      NothingMarked();
      NoPieces(buf[..], totalLen, expectedTotal);
    }

    method Feed(payload: seq<byte>, now: int) returns (code: Code)
      requires Valid()
      modifies this, buf
      ensures Valid()
      ensures var (slot, r) := FeedSlot(old(View()), payload, now);
              View() == slot && code == CodeOf(r) && (r.Complete? ==> buf[..totalLen] == r.config)
      ensures stats == Count(CountTimeout(old(stats), code !in {ERR_HEADER, ERR_TOO_LARGE} && Expired(old(View()), now)), code)
    {
      hide Store, Pieces, Crc, FragCount, SliceLen, HdrDecode;
      if |payload| < HDR_SIZE { return ERR_HEADER; }
      var hdr := HdrDecode(payload);
      var sliceLen := |payload| - HDR_SIZE;
      if hdr.totalLen > CONFIG_MAX { return ERR_TOO_LARGE; }
      if !HeaderIsSane(hdr, sliceLen) { return ERR_HEADER; }

      if active && now - firstFragUs >= TIMEOUT_US {
        stats := stats.(timeouts := stats.timeouts + 1);
        Reset();
      }
      if !active {
        Begin(hdr, now);
      } else if hdr.cfgId != cfgId || hdr.total != expectedTotal || hdr.totalLen != totalLen || hdr.crcTotal != crcExpected {
        stats := stats.(foreign := stats.foreign + 1);
        return ERR_FOREIGN;
      }
      code := StoreSlice(hdr.index, payload[HDR_SIZE..]);
    }

    method StoreSlice(index: nat, slice: seq<byte>) returns (code: Code)
      requires Valid() && active
      requires index < expectedTotal && index * PAYLOAD_MAX <= totalLen && |slice| == SliceLen(totalLen, index)
      modifies this, buf
      ensures Valid()
      ensures var (slot, r) := Store(old(View()), index, slice);
              View() == slot && code == CodeOf(r) && (r.Complete? ==> buf[..totalLen] == r.config)
      ensures stats == Count(old(stats), code)
      ensures code !in {ERR_HEADER, ERR_TOO_LARGE, ERR_FOREIGN}
    {
      hide Crc, FragCount, Pieces, Marked, CompleteMask, SliceLen, Joined;
      PiecesKeys(buf[..], totalLen, expectedTotal, receivedMask);
      if Marked(receivedMask, index) {
        stats := stats.(duplicates := stats.duplicates + 1);
        return DUPLICATE;
      }
      Put(index, slice);
      PiecesKeys(buf[..], totalLen, expectedTotal, receivedMask);
      MaskComplete(receivedMask, expectedTotal);
      if receivedMask != CompleteMask(expectedTotal) { return NEED_MORE; }
      code := Finish();
    }

    method Put(index: nat, slice: seq<byte>)
      requires Valid() && active
      requires index < expectedTotal && index * PAYLOAD_MAX <= totalLen && |slice| == SliceLen(totalLen, index)
      modifies this, buf
      ensures Valid() && active && stats == old(stats)
      ensures old(View()).Active? && View() == old(View()).(slices := old(View()).slices[index := slice])
    {
      hide FragCount, Pieces, BitMask, SliceLen;
      ghost var b := buf[..];
      SliceFits(totalLen, index);
      CopyInto(slice, buf, index * PAYLOAD_MAX);
      ghost var mask := receivedMask;
      receivedMask := receivedMask | BitMask(index);
      PiecesStore(b, buf[..], totalLen, expectedTotal, mask, receivedMask, index, slice);
    }

    method Finish() returns (code: Code)
      requires Valid() && active && forall k :: 0 <= k < expectedTotal ==> Marked(receivedMask, k)
      modifies this
      ensures Valid() && View() == Free
      ensures var slot := old(View());
              && slot.Active?
              && AllPresent(slot.slices, slot.key.total)
              && buf[..totalLen] == Joined(slot.slices, slot.key.total)
              && (code == if Crc(buf[..totalLen]) == slot.key.crcTotal then COMPLETE else ERR_CRC)
      ensures stats == Count(old(stats), code)
    {
      hide Crc, FragCount, Pieces;
      JoinedIsPrefix(buf[..], totalLen, expectedTotal, receivedMask, expectedTotal);
      CountCovers(totalLen);
      var crc := Crc16.Crc16(buf[..totalLen]);
      var crcOk := crc == crcExpected;
      var assembledLen := totalLen;
      Reset();
      totalLen := assembledLen;
      if !crcOk {
        stats := stats.(crcFail := stats.crcFail + 1);
        return ERR_CRC;
      }
      stats := stats.(completed := stats.completed + 1);
      return COMPLETE;
    }

    method Tick(now: int) returns (fired: bool)
      requires Valid()
      modifies this
      ensures Valid() && View() == TickSlot(old(View()), now) && fired == Expired(old(View()), now)
      ensures stats == CountTimeout(old(stats), fired)
    {
      if !active { return false; }
      if now - firstFragUs < TIMEOUT_US { return false; }
      stats := stats.(timeouts := stats.timeouts + 1);
      Reset();
      return true;
    }
  }

  lemma SliceFits(totalLen: nat, index: nat)
    requires index * PAYLOAD_MAX <= totalLen <= CONFIG_MAX
    ensures index * PAYLOAD_MAX + SliceLen(totalLen, index) <= totalLen
  {
  }

  lemma NothingMarked()
    ensures forall j :: 0 <= j < MAX_FRAGMENTS ==> !Marked(0, j)
  {
  }

  lemma NoPieces(b: seq<byte>, totalLen: nat, total: nat)
    requires total == FragCount(totalLen) && totalLen <= CONFIG_MAX && |b| == CONFIG_MAX
    ensures Pieces(b, totalLen, total, 0) == map[]
  {
    NothingMarked();
  }

  lemma PiecesKeys(b: seq<byte>, totalLen: nat, total: nat, mask: byte)
    requires total == FragCount(totalLen) && totalLen <= CONFIG_MAX && |b| == CONFIG_MAX
    ensures total <= MAX_FRAGMENTS
    ensures forall i: nat :: i in Pieces(b, totalLen, total, mask) <==> i < total && Marked(mask, i)
    ensures forall i: nat :: i < total && Marked(mask, i) ==> i * PAYLOAD_MAX <= totalLen && Pieces(b, totalLen, total, mask)[i] == Piece(b, totalLen, i)
  {
  }

  /** Storing one slice changes that piece and no other. */
  lemma PiecesStore(b: seq<byte>, b': seq<byte>, totalLen: nat, total: nat, mask: byte, mask': byte,
                    index: nat, slice: seq<byte>)
    requires total == FragCount(totalLen) && totalLen <= CONFIG_MAX && |b| == |b'| == CONFIG_MAX
    requires index < total <= MAX_FRAGMENTS && mask' == mask | BitMask(index) && index * PAYLOAD_MAX <= totalLen && |slice| == SliceLen(totalLen, index)
    requires b' == b[..index * PAYLOAD_MAX] + slice + b[index * PAYLOAD_MAX + |slice|..]
    ensures Pieces(b', totalLen, total, mask') == Pieces(b, totalLen, total, mask)[index := slice]
    ensures forall j :: total <= j < MAX_FRAGMENTS && !Marked(mask, j) ==> !Marked(mask', j)
  {
    hide Marked, Piece;
    MarkAll(mask, mask', index);
    var m, m' := Pieces(b, totalLen, total, mask), Pieces(b', totalLen, total, mask');
    forall j: nat | j < total
      ensures j * PAYLOAD_MAX <= totalLen
      ensures Piece(b', totalLen, j) == if j == index then slice else Piece(b, totalLen, j)
    {
      PieceStore(b, b', totalLen, index, slice, j);
    }
    assert m'.Keys == m.Keys + {index};
  }

  lemma MarkAll(mask: byte, mask': byte, i: nat)
    requires i < MAX_FRAGMENTS && mask' == mask | BitMask(i)
    ensures forall j :: 0 <= j < MAX_FRAGMENTS ==> (Marked(mask', j) <==> i == j || Marked(mask, j))
  {
    hide Marked, BitMask;
    forall j: nat | j < MAX_FRAGMENTS
      ensures Marked(mask', j) <==> i == j || Marked(mask, j)
    {
      MarkOne(mask, i, j);
    }
  }

  lemma PieceStore(b: seq<byte>, b': seq<byte>, totalLen: nat, index: nat, slice: seq<byte>, j: nat)
    requires totalLen <= CONFIG_MAX && |b| == |b'| == CONFIG_MAX && j * PAYLOAD_MAX <= totalLen
    requires index * PAYLOAD_MAX <= totalLen && |slice| == SliceLen(totalLen, index)
    requires b' == b[..index * PAYLOAD_MAX] + slice + b[index * PAYLOAD_MAX + |slice|..]
    ensures Piece(b', totalLen, j) == if j == index then slice else Piece(b, totalLen, j)
  {
    var at := index * PAYLOAD_MAX;
    if j == index {
      SpliceInside(b, slice, at);
    } else {
      SpliceOutside(b, slice, at, j * PAYLOAD_MAX, j * PAYLOAD_MAX + SliceLen(totalLen, j));
    }
  }

  lemma SpliceInside(b: seq<byte>, slice: seq<byte>, at: nat)
    requires at + |slice| <= |b|
    ensures (b[..at] + slice + b[at + |slice|..])[at..at + |slice|] == slice
  {
  }

  lemma SpliceOutside(b: seq<byte>, slice: seq<byte>, at: nat, lo: nat, hi: nat)
    requires at + |slice| <= |b| && lo <= hi <= |b| && (hi <= at || at + |slice| <= lo)
    ensures (b[..at] + slice + b[at + |slice|..])[lo..hi] == b[lo..hi]
  {
  }

  lemma {:induction false} JoinedIsPrefix(b: seq<byte>, totalLen: nat, total: nat, mask: byte, n: nat)
    requires total == FragCount(totalLen) && totalLen <= CONFIG_MAX && |b| == CONFIG_MAX
    requires n <= total <= MAX_FRAGMENTS && forall k :: 0 <= k < total ==> Marked(mask, k)
    ensures AllPresent(Pieces(b, totalLen, total, mask), n)
    ensures Joined(Pieces(b, totalLen, total, mask), n) == b[..Min(n * PAYLOAD_MAX, totalLen)]
  {
    hide BitMask, Marked, Piece, FragCount;
    if n > 0 {
      var m := Pieces(b, totalLen, total, mask);
      JoinedIsPrefix(b, totalLen, total, mask, n - 1);
      SliceInRange(totalLen, n - 1);
      assert Marked(mask, n - 1) && m[n - 1] == Piece(b, totalLen, n - 1);
      PieceExtends(b, totalLen, n - 1);
    }
  }

  lemma PieceExtends(b: seq<byte>, totalLen: nat, i: nat)
    requires i * PAYLOAD_MAX <= totalLen <= |b|
    ensures b[..Min(i * PAYLOAD_MAX, totalLen)] + Piece(b, totalLen, i) == b[..Min((i + 1) * PAYLOAD_MAX, totalLen)]
  {
  }

  // ---- any history: COMPLETE means one coherent transaction -------------------------

  datatype Event = Fed(payload: seq<byte>, at: int) | Ticked(at: int) | WasReset

  function StepSlot(slot: Slot, e: Event): Slot {
    match e
    case Fed(payload, at) => FeedSlot(slot, payload, at).0
    case Ticked(at) => TickSlot(slot, at)
    case WasReset => Free
  }

  function RunSlot(h: seq<Event>): Slot {
    if h == [] then Free else StepSlot(RunSlot(h[..|h| - 1]), h[|h| - 1])
  }

  /** A well-formed fragment, of whatever transaction. */
  predicate IsFragment(e: Event) {
    e.Fed? && |e.payload| >= HDR_SIZE && HeaderIsSane(HdrDecode(e.payload), |e.payload| - HDR_SIZE)
  }

  /** Fragment `i` of transaction `key`. */
  predicate Carries(e: Event, key: Key, i: nat) {
    IsFragment(e) && KeyOf(HdrDecode(e.payload)) == key && HdrDecode(e.payload).index == i
  }

  /** Ends a transaction that began at `firstUs`: a reset, or a tick or fragment 30 s or more later. */
  predicate Ends(e: Event, firstUs: int) {
    match e
    case WasReset => true
    case Ticked(at) => at - firstUs >= 30_000_000
    case Fed(_, at) => IsFragment(e) && at - firstUs >= 30_000_000
  }

  /** Event `first` began transaction `key`: it carries one of its fragments and found no live transaction. */
  predicate Began(h: seq<Event>, first: nat, key: Key) {
    && first < |h| && h[first].Fed? && Carries(h[first], key, HdrIndex(h[first]))
    && (RunSlot(h[..first]).Free? || Expired(RunSlot(h[..first]), h[first].at))
  }

  function HdrIndex(e: Event): nat {
    if IsFragment(e) then HdrDecode(e.payload).index else 0
  }

  /** Nothing since has ended it by reset or by time. */
  predicate Lasting(h: seq<Event>, first: nat)
    requires first < |h| && h[first].Fed?
  {
    forall j :: first < j < |h| ==> !Ends(h[j], h[first].at)
  }

  /** No event from `first` up to `k` carried fragment `i`. */
  predicate NotYet(h: seq<Event>, first: nat, k: nat, key: Key, i: nat)
    requires k <= |h|
  {
    forall j :: first <= j < k ==> !Carries(h[j], key, i)
  }

  /** Event `k`, no earlier than `first`, is the first to carry fragment `i`, and this is its slice. */
  predicate Brings(h: seq<Event>, first: nat, k: nat, key: Key, i: nat, slice: seq<byte>) {
    && first <= k < |h| && Carries(h[k], key, i) && h[k].payload[HDR_SIZE..] == slice
    && NotYet(h, first, k, key, i)
  }

  /** The last event is the first since `first` to carry fragment `i`. */
  predicate BroughtLast(h: seq<Event>, first: nat, key: Key, i: nat) {
    first < |h| && Carries(h[|h| - 1], key, i) && NotYet(h, first, |h| - 1, key, i)
  }

  /**
   * The live transaction began at event `first`; it holds, for each fragment carried since, the
   * slice of the first event that carried it, and nothing else.
   */
  ghost predicate Explained(h: seq<Event>, slot: Slot, first: nat)
    requires slot.Active?
  {
    && 0 < slot.key.total <= MAX_FRAGMENTS && slot.key.totalLen <= CONFIG_MAX && FragCount(slot.key.totalLen) == slot.key.total
    && Began(h, first, slot.key) && h[first].at == slot.firstUs && Lasting(h, first)
    && (forall i :: i in slot.slices ==> i < slot.key.total && exists k :: Brings(h, first, k, slot.key, i, slot.slices[i]))
    && (forall i :: i !in slot.slices ==> NotYet(h, first, |h|, slot.key, i))
  }

  lemma BeganSnoc(h: seq<Event>, first: nat, key: Key, e: Event)
    requires first < |h|
    ensures Began(h + [e], first, key) <==> Began(h, first, key)
  {
    hide Carries, RunSlot, HdrIndex;
    assert (h + [e])[..first] == h[..first];
  }

  lemma LastingSnoc(h: seq<Event>, first: nat, e: Event)
    requires first < |h| && h[first].Fed?
    ensures Lasting(h + [e], first) <==> Lasting(h, first) && !Ends(e, h[first].at)
  {
    hide Ends;
    var h' := h + [e];
    assert h'[|h|] == e;
    assert forall j :: 0 <= j < |h| ==> h'[j] == h[j];
  }

  lemma NotYetSnoc(h: seq<Event>, first: nat, key: Key, i: nat, e: Event)
    requires first <= |h|
    ensures NotYet(h + [e], first, |h| + 1, key, i) <==> NotYet(h, first, |h|, key, i) && !Carries(e, key, i)
  {
    hide Carries;
    var h' := h + [e];
    assert h'[|h|] == e;
    assert forall j :: 0 <= j < |h| ==> h'[j] == h[j];
  }

  lemma BringsSnoc(h: seq<Event>, first: nat, k: nat, key: Key, i: nat, slice: seq<byte>, e: Event)
    requires Brings(h, first, k, key, i, slice)
    ensures Brings(h + [e], first, k, key, i, slice)
  {
    hide Carries;
    var h' := h + [e];
    assert forall j :: 0 <= j < |h| ==> h'[j] == h[j];
  }

  /** An event that neither ends the transaction nor carries a missing fragment leaves it explained. */
  lemma StillExplained(h: seq<Event>, slot: Slot, first: nat, e: Event)
    requires slot.Active? && Explained(h, slot, first) && !Ends(e, slot.firstUs)
    requires forall i :: i !in slot.slices ==> !Carries(e, slot.key, i)
    ensures Explained(h + [e], slot, first)
  {
    hide Began, Lasting, Brings, NotYet, Carries, Ends, FragCount;
    AtIs(h, first, slot.key);
    BeganSnoc(h, first, slot.key, e);
    LastingSnoc(h, first, e);
    forall i | i in slot.slices
      ensures exists k :: Brings(h + [e], first, k, slot.key, i, slot.slices[i])
    {
      var k :| Brings(h, first, k, slot.key, i, slot.slices[i]);
      BringsSnoc(h, first, k, slot.key, i, slot.slices[i], e);
    }
    forall i | i !in slot.slices
      ensures NotYet(h + [e], first, |h + [e]|, slot.key, i)
    {
      NotYetSnoc(h, first, slot.key, i, e);
    }
  }

  lemma AtIs(h: seq<Event>, first: nat, key: Key)
    requires Began(h, first, key)
    ensures first < |h| && h[first].Fed?
  {
  }

  /** A fragment that was missing is stored, and what is stored stays explained. */
  lemma StoreExplained(h: seq<Event>, slot: Slot, first: nat, e: Event, i: nat)
    requires slot.Active? && Explained(h, slot, first) && !Ends(e, slot.firstUs)
    requires Carries(e, slot.key, i) && i !in slot.slices
    ensures Explained(h + [e], slot.(slices := slot.slices[i := e.payload[HDR_SIZE..]]), first)
    ensures i < slot.key.total && BroughtLast(h + [e], first, slot.key, i)
  {
    hide Began, Lasting, Ends, FragCount, HdrDecode;
    AtIs(h, first, slot.key);
    BeganSnoc(h, first, slot.key, e);
    LastingSnoc(h, first, e);
    var h' := h + [e];
    var slices := slot.slices[i := e.payload[HDR_SIZE..]];
    BringsLast(h, first, e, slot.key, i);
    forall j | j in slices
      ensures exists k :: Brings(h', first, k, slot.key, j, slices[j])
    {
      if j != i {
        var k :| Brings(h, first, k, slot.key, j, slot.slices[j]);
        BringsSnoc(h, first, k, slot.key, j, slot.slices[j], e);
      }
    }
    forall j | j !in slices
      ensures NotYet(h', first, |h'|, slot.key, j)
    {
      NotYetSnoc(h, first, slot.key, j, e);
    }
  }

  lemma BringsLast(h: seq<Event>, first: nat, e: Event, key: Key, i: nat)
    requires first <= |h| && Carries(e, key, i) && NotYet(h, first, |h|, key, i)
    ensures Brings(h + [e], first, |h|, key, i, e.payload[HDR_SIZE..]) && BroughtLast(h + [e], first, key, i)
  {
    hide Carries;
    var h' := h + [e];
    assert h'[|h|] == e;
    assert forall j :: 0 <= j < |h| ==> h'[j] == h[j];
  }

  /** A fragment that finds no live transaction begins its own. */
  lemma FirstExplained(h: seq<Event>, e: Event)
    requires IsFragment(e) && (RunSlot(h).Free? || Expired(RunSlot(h), e.at))
    ensures var key := KeyOf(HdrDecode(e.payload)); var i := HdrDecode(e.payload).index;
            && Explained(h + [e], Active(key, e.at, map[i := e.payload[HDR_SIZE..]]), |h|)
            && i < key.total && BroughtLast(h + [e], |h|, key, i)
  {
    hide HdrDecode, RunSlot, FragCount, SliceLen;
    var h' := h + [e];
    assert h'[|h|] == e && h'[..|h|] == h;
    var key, i := KeyOf(HdrDecode(e.payload)), HdrDecode(e.payload).index;
    assert Carries(e, key, i);
    assert NotYet(h', |h|, |h|, key, i);
    assert Brings(h', |h|, |h|, key, i, e.payload[HDR_SIZE..]);
    assert Lasting(h', |h|);
    forall j | j != i
      ensures NotYet(h', |h|, |h'|, key, j)
    {
    }
  }

  /** What a fragment finds: the live transaction, or none. */
  lemma FragmentStep(slot: Slot, e: Event)
    requires IsFragment(e)
    ensures var hdr := HdrDecode(e.payload);
            var fresh' := slot.Free? || Expired(slot, e.at);
            var current := if fresh' then Active(KeyOf(hdr), e.at, map[]) else slot;
            FeedSlot(slot, e.payload, e.at) == if KeyOf(hdr) == current.key then Store(current, hdr.index, e.payload[HDR_SIZE..]) else (slot, ErrForeign)
  {
    hide HdrDecode, FragCount, SliceLen, Store;
  }

  lemma OtherStep(slot: Slot, e: Event)
    requires e.Fed? && !IsFragment(e)
    ensures FeedSlot(slot, e.payload, e.at).0 == slot && !FeedSlot(slot, e.payload, e.at).1.Complete?
  {
    hide HdrDecode, FragCount, SliceLen, Store;
  }

  /** Every live transaction is explained by the history, from the event that began it. */
  lemma {:induction false} RunExplained(h: seq<Event>)
    ensures RunSlot(h).Active? ==> exists first :: Explained(h, RunSlot(h), first)
    decreases |h|
  {
    hide Explained, FeedSlot, Store, HdrDecode, IsFragment, Carries;
    if h != [] {
      var h', e := h[..|h| - 1], h[|h| - 1];
      assert h == h' + [e];
      RunExplained(h');
      StepExplained(h', e);
    }
  }

  lemma StepExplained(h: seq<Event>, e: Event)
    requires RunSlot(h).Active? ==> exists first :: Explained(h, RunSlot(h), first)
    ensures StepSlot(RunSlot(h), e).Active? ==> exists first :: Explained(h + [e], StepSlot(RunSlot(h), e), first)
  {
    hide Explained, FeedSlot, HdrDecode, HeaderIsSane, RunSlot;
    var slot := RunSlot(h);
    if IsFragment(e) && (slot.Free? || Expired(slot, e.at)) {
      FragmentStep(slot, e);
      FirstExplained(h, e);
    } else if slot.Active? {
      var first :| Explained(h, slot, first);
      if e.Fed? && IsFragment(e) {
        FragmentStep(slot, e);
        var i := HdrDecode(e.payload).index;
        if KeyOf(HdrDecode(e.payload)) == slot.key && i !in slot.slices {
          StoreExplained(h, slot, first, e, i);
        } else {
          StillExplained(h, slot, first, e);
        }
      } else {
        if e.Fed? { OtherStep(slot, e); }
        if StepSlot(slot, e).Active? {
          StillExplained(h, slot, first, e);
        }
      }
    } else if e.Fed? {
      OtherStep(slot, e);
    }
  }

  /** Slices of the right lengths are the slices of what they join to. */
  lemma {:induction false} JoinedSlices(slices: map<nat, seq<byte>>, n: nat, totalLen: nat)
    requires n <= FragCount(totalLen) && totalLen <= CONFIG_MAX && AllPresent(slices, n)
    requires forall k: nat :: k < n ==> k * PAYLOAD_MAX <= totalLen && |slices[k]| == SliceLen(totalLen, k)
    ensures |Joined(slices, n)| == Min(n * PAYLOAD_MAX, totalLen)
    ensures forall k: nat :: k < n ==> k * PAYLOAD_MAX + |slices[k]| <= |Joined(slices, n)|
    ensures forall k: nat :: k < n ==> slices[k] == Joined(slices, n)[k * PAYLOAD_MAX..k * PAYLOAD_MAX + |slices[k]|]
  {
    hide SliceLen, FragCount, Min;
    if n > 0 {
      var last: nat := n - 1;
      JoinedSlices(slices, last, totalLen);
      SliceEnds(totalLen, last, n);
      var j, j' := Joined(slices, last), Joined(slices, n);
      assert j' == j + slices[last];
      assert |j| == last * PAYLOAD_MAX;
      assert slices[last] == j'[last * PAYLOAD_MAX..last * PAYLOAD_MAX + |slices[last]|];
      forall k: nat | k < last
        ensures k * PAYLOAD_MAX + |slices[k]| <= |j'|
        ensures slices[k] == j'[k * PAYLOAD_MAX..k * PAYLOAD_MAX + |slices[k]|]
      {
        PrefixSlice(j, slices[last], k * PAYLOAD_MAX, k * PAYLOAD_MAX + |slices[k]|);
      }
    } else {
      SliceEnds(totalLen, 0, 0);
    }
  }

  lemma SliceEnds(totalLen: nat, last: nat, n: nat)
    requires n <= FragCount(totalLen) && totalLen <= CONFIG_MAX && (n > 0 ==> last == n - 1)
    ensures n == 0 ==> Min(n * PAYLOAD_MAX, totalLen) == 0
    ensures n > 0 ==> last * PAYLOAD_MAX <= totalLen && last < FragCount(totalLen) && Min(last * PAYLOAD_MAX, totalLen) == last * PAYLOAD_MAX
    ensures n > 0 ==> last * PAYLOAD_MAX + SliceLen(totalLen, last) == Min(n * PAYLOAD_MAX, totalLen)
  {
  }

  lemma PrefixSlice(s: seq<byte>, t: seq<byte>, lo: nat, hi: nat)
    requires lo <= hi <= |s|
    ensures (s + t)[lo..hi] == s[lo..hi]
  {
  }

  /** Slice `i` of the config is the one the first fragment `i` since `first` brought. */
  ghost predicate Sourced(h: seq<Event>, config: seq<byte>, key: Key, first: nat, i: nat)
    requires i * PAYLOAD_MAX <= |config|
  {
    exists k :: Brings(h, first, k, key, i, Slice(config, i))
  }

  /**
   * The config is one transaction's: it began at event `first`, nothing has ended it since, its
   * length and checksum are the declared ones, each slice is what the first fragment of that
   * index since `first` brought, and only the last event brought the last one.
   */
  ghost predicate Coherent(h: seq<Event>, config: seq<byte>, key: Key, first: nat) {
    && |config| == key.totalLen <= CONFIG_MAX && FragCount(|config|) == key.total && Crc(config) == key.crcTotal
    && Began(h, first, key) && Lasting(h, first)
    && (forall i: nat :: i < key.total ==> i * PAYLOAD_MAX <= |config|)
    && (forall i: nat :: i < key.total ==> Sourced(h, config, key, first, i))
    && exists i: nat :: i < key.total && BroughtLast(h, first, key, i)
  }

  /**
   * After any history of payloads and times, COMPLETE(config) means: the config is that of one
   * transaction, all of whose fragments came since the event that began it, none of them 30 s
   * or more after it. Nothing an earlier transaction left in the buffer shows through.
   */
  lemma CompleteMeans(h: seq<Event>, payload: seq<byte>, at: int)
    requires FeedSlot(RunSlot(h), payload, at).1.Complete?
    ensures exists key, first :: Coherent(h + [Fed(payload, at)], FeedSlot(RunSlot(h), payload, at).1.config, key, first)
  {
    hide FragCount, Crc, Joined, HdrDecode, HeaderIsSane, Coherent, RunSlot, FeedSlot, Explained, Brings;
    var slot, e := RunSlot(h), Fed(payload, at);
    if !IsFragment(e) {
      OtherStep(slot, e);
    } else {
      FragmentStep(slot, e);
      var i, slice := HdrDecode(payload).index, payload[HDR_SIZE..];
      if slot.Free? || Expired(slot, at) {
        FirstExplained(h, e);
        var key := KeyOf(HdrDecode(payload));
        StoredCoherent(h + [e], Active(key, at, map[]), |h|, i, slice);
      } else {
        RunExplained(h);
        var first :| Explained(h, slot, first);
        StoreExplained(h, slot, first, e, i);
        StoredCoherent(h + [e], slot, first, i, slice);
      }
    }
  }

  lemma StoredCoherent(h: seq<Event>, slot: Slot, first: nat, index: nat, slice: seq<byte>)
    requires slot.Active? && Store(slot, index, slice).1.Complete? && h != []
    requires Explained(h, slot.(slices := slot.slices[index := slice]), first)
    requires index < slot.key.total && BroughtLast(h, first, slot.key, index)
    ensures Coherent(h, Store(slot, index, slice).1.config, slot.key, first)
  {
    hide FragCount, SliceLen, Crc, Joined, Brings, Began, Lasting, BroughtLast;
    var key := slot.key;
    var slices := slot.slices[index := slice];
    SlicesFit(h, slot.(slices := slices), first);
    forall i: nat | i < key.total
      ensures i * PAYLOAD_MAX <= key.totalLen && |slices[i]| == SliceLen(key.totalLen, i)
    {
      assert i in slices;
    }
    JoinedSlices(slices, key.total, key.totalLen);
    var config := Joined(slices, key.total);
    CountCovers(key.totalLen);
    forall i: nat | i < key.total
      ensures i * PAYLOAD_MAX <= |config| && Slice(config, i) == slices[i]
    {
    }
    forall i: nat | i < key.total
      ensures Sourced(h, config, key, first, i)
    {
      var k: nat :| Brings(h, first, k, key, i, slices[i]);
      assert Brings(h, first, k, key, i, Slice(config, i));
    }
  }

  lemma SlicesFit(h: seq<Event>, slot: Slot, first: nat)
    requires slot.Active? && Explained(h, slot, first)
    ensures forall i: nat :: i in slot.slices ==> i * PAYLOAD_MAX <= slot.key.totalLen && |slot.slices[i]| == SliceLen(slot.key.totalLen, i)
  {
    hide SliceLen, FragCount, Brings, Began, Lasting, NotYet;
    forall i: nat | i in slot.slices
      ensures i * PAYLOAD_MAX <= slot.key.totalLen && |slot.slices[i]| == SliceLen(slot.key.totalLen, i)
    {
      var k: nat :| Brings(h, first, k, slot.key, i, slot.slices[i]);
      BringsLength(h, first, k, slot.key, i, slot.slices[i]);
    }
  }

  lemma BringsLength(h: seq<Event>, first: nat, k: nat, key: Key, i: nat, slice: seq<byte>)
    requires Brings(h, first, k, key, i, slice)
    ensures i * PAYLOAD_MAX <= key.totalLen && |slice| == SliceLen(key.totalLen, i)
  {
    hide SliceLen, FragCount, HdrDecode, NotYet;
    assert |slice| == |h[k].payload| - HDR_SIZE;
  }

  lemma CountCovers(totalLen: nat)
    requires totalLen <= CONFIG_MAX
    ensures FragCount(totalLen) * PAYLOAD_MAX >= totalLen
  {
  }

  // ---- a config's own fragments, in any order ---------------------------------------

  function KeyFor(cfgId: bv16, config: seq<byte>): Key {
    Key(cfgId, FragCount(|config|), |config|, Crc(config))
  }

  lemma HdrRoundTrip(h: Hdr, rest: seq<byte>)
    requires h.index < 256 && h.total < 256 && h.totalLen < 0x1_0000
    ensures HdrDecode(HdrEncode(h) + rest) == h
  {
    Word16Halves(h.cfgId, Hi(h.cfgId), Lo(h.cfgId));
    Word16Halves(h.crcTotal, Hi(h.crcTotal), Lo(h.crcTotal));
    hide Hi, Lo, Word16;
    var s := HdrEncode(h) + rest;
    assert s[0] == Hi(h.cfgId) && s[1] == Lo(h.cfgId) && s[2] == U8(h.index) && s[3] == U8(h.total);
    assert s[4] == Hi8(h.totalLen) && s[5] == Lo8(h.totalLen) && s[6] == Hi(h.crcTotal) && s[7] == Lo(h.crcTotal);
  }

  /** A built fragment parses back to its header and slice, and passes the geometry check. */
  lemma FragmentParses(cfgId: bv16, index: nat, config: seq<byte>)
    requires index < FragCount(|config|)
    ensures var p := Fragment(cfgId, index, config);
            && |p| >= HDR_SIZE && index * PAYLOAD_MAX <= |config| <= CONFIG_MAX
            && HdrDecode(p) == Hdr(cfgId, index, FragCount(|config|), |config|, Crc(config))
            && HeaderIsSane(HdrDecode(p), |p| - HDR_SIZE)
            && p[HDR_SIZE..] == Slice(config, index)
  {
    hide Crc, HdrEncode, HdrDecode;
    SliceInRange(|config|, index);
    HdrRoundTrip(Hdr(cfgId, index, FragCount(|config|), |config|, Crc(config)), Slice(config, index));
  }

  /** Part of the config is in the slot, and something is still missing. */
  predicate Assembling(slot: Slot, cfgId: bv16, config: seq<byte>) {
    && slot.Active? && slot.key == KeyFor(cfgId, config)
    && OwnSlices(slot.slices, config)
    && !AllPresent(slot.slices, FragCount(|config|))
  }

  predicate OwnSlices(slices: map<nat, seq<byte>>, config: seq<byte>) {
    && |config| <= CONFIG_MAX
    && forall i: nat :: i in slices ==> i < FragCount(|config|) && i * PAYLOAD_MAX <= |config| && slices[i] == Slice(config, i)
  }

  lemma {:induction false} OwnSlicesJoin(slices: map<nat, seq<byte>>, config: seq<byte>, n: nat)
    requires OwnSlices(slices, config) && AllPresent(slices, n) && n <= FragCount(|config|)
    ensures Joined(slices, n) == config[..Min(n * PAYLOAD_MAX, |config|)]
  {
    if n > 0 {
      OwnSlicesJoin(slices, config, n - 1);
    }
  }

  /** What arrives: one of the config's own fragments, or something else. */
  datatype Arrival = Mine(index: nat, at: int) | Stranger(payload: seq<byte>, at: int)

  /** Malformed, or headed for a different transaction. */
  predicate NotOurs(payload: seq<byte>, key: Key) {
    |payload| >= HDR_SIZE && HeaderIsSane(HdrDecode(payload), |payload| - HDR_SIZE) ==> KeyOf(HdrDecode(payload)) != key
  }

  predicate Admissible(a: Arrival, cfgId: bv16, config: seq<byte>, firstUs: int) {
    a.at - firstUs < TIMEOUT_US && Indexed(a, config) && (a.Stranger? ==> NotOurs(a.payload, KeyFor(cfgId, config)))
  }

  predicate Indexed(a: Arrival, config: seq<byte>) {
    a.Mine? ==> a.index < FragCount(|config|)
  }

  function PayloadOf(a: Arrival, cfgId: bv16, config: seq<byte>): seq<byte>
    requires Indexed(a, config)
  {
    if a.Mine? then Fragment(cfgId, a.index, config) else a.payload
  }

  /** One arrival while assembling: strangers change nothing, own fragments count once. */
  lemma ArrivalStep(slot: Slot, cfgId: bv16, config: seq<byte>, a: Arrival)
    requires Assembling(slot, cfgId, config) && Admissible(a, cfgId, config, slot.firstUs)
    ensures var (slot', r) := FeedSlot(slot, PayloadOf(a, cfgId, config), a.at);
            if a.Stranger? then slot' == slot && (r == ErrHeader || r == ErrTooLarge || r == ErrForeign)
            else if a.index in slot.slices then slot' == slot && r == Duplicate
            else if AllPresent(slot.slices[a.index := []], FragCount(|config|)) then slot' == Free && r == Complete(config)
            else r == NeedMore && Assembling(slot', cfgId, config) && slot'.firstUs == slot.firstUs &&
                 slot'.slices.Keys == slot.slices.Keys + {a.index}
  {
    hide Crc, HdrDecode, SliceLen, Slice, FragCount, Fragment;
    match a
    case Stranger(payload, at) =>
    case Mine(index, at) =>
      FragmentParses(cfgId, index, config);
      if index !in slot.slices {
        var slices := slot.slices[index := Slice(config, index)];
        assert AllPresent(slices, FragCount(|config|)) == AllPresent(slot.slices[index := []], FragCount(|config|)) by {
          SameKeys(slices, slot.slices[index := []], FragCount(|config|));
        }
        if AllPresent(slices, FragCount(|config|)) {
          OwnSlicesJoin(slices, config, FragCount(|config|));
          CountCovers(|config|);
          assert config[..|config|] == config;
        }
      }
  }

  lemma SameKeys(a: map<nat, seq<byte>>, b: map<nat, seq<byte>>, n: nat)
    requires a.Keys == b.Keys
    ensures AllPresent(a, n) == AllPresent(b, n)
  {
    assert forall k :: k in a <==> k in a.Keys;
    assert forall k :: k in b <==> k in b.Keys;
  }

  function RunArrivals(slot: Slot, cfgId: bv16, config: seq<byte>, arrivals: seq<Arrival>): Slot
    requires forall a :: a in arrivals ==> Indexed(a, config)
  {
    if arrivals == [] then slot else
      var n := |arrivals| - 1;
      FeedSlot(RunArrivals(slot, cfgId, config, arrivals[..n]), PayloadOf(arrivals[n], cfgId, config), arrivals[n].at).0
  }

  function Indices(arrivals: seq<Arrival>): set<nat> {
    set a | a in arrivals && a.Mine? :: a.index
  }

  predicate Covers(got: set<nat>, config: seq<byte>) {
    forall k: nat :: k < FragCount(|config|) ==> k in got
  }

  lemma CoversIff(slices: map<nat, seq<byte>>, config: seq<byte>)
    ensures AllPresent(slices, FragCount(|config|)) <==> Covers(slices.Keys, config)
  {
    hide FragCount;
  }

  lemma CoversGrows(got: set<nat>, more: set<nat>, config: seq<byte>)
    requires got <= more
    ensures Covers(got, config) ==> Covers(more, config)
  {
    hide FragCount;
  }

  /** While fragments are missing, the slot holds exactly what has arrived. */
  lemma {:induction false} StillAssembling(slot: Slot, cfgId: bv16, config: seq<byte>, arrivals: seq<Arrival>)
    requires Assembling(slot, cfgId, config)
    requires forall a :: a in arrivals ==> Indexed(a, config) && Admissible(a, cfgId, config, slot.firstUs)
    requires !Covers(slot.slices.Keys + Indices(arrivals), config)
    ensures var slot' := RunArrivals(slot, cfgId, config, arrivals);
            Assembling(slot', cfgId, config) && slot'.firstUs == slot.firstUs && slot'.slices.Keys == slot.slices.Keys + Indices(arrivals)
    decreases |arrivals|
  {
    hide FragCount, FeedSlot, PayloadOf, OwnSlices, AllPresent, KeyFor;
    if arrivals != [] {
      var n := |arrivals| - 1;
      var before, a := arrivals[..n], arrivals[n];
      assert arrivals == before + [a];
      CoversGrows(slot.slices.Keys + Indices(before), slot.slices.Keys + Indices(arrivals), config);
      StillAssembling(slot, cfgId, config, before);
      var mid := RunArrivals(slot, cfgId, config, before);
      ArrivalStep(mid, cfgId, config, a);
      if a.Mine? {
        assert Indices(arrivals) == Indices(before) + {a.index};
        assert mid.slices[a.index := []].Keys == slot.slices.Keys + Indices(arrivals);
        CoversIff(mid.slices[a.index := []], config);
        if a.index in mid.slices {
          assert slot.slices.Keys + Indices(arrivals) == mid.slices.Keys;
        }
      } else {
        assert Indices(arrivals) == Indices(before);
      }
    } else {
      assert slot.slices.Keys + Indices(arrivals) == slot.slices.Keys;
    }
  }

  /**
   * Feeding a config's fragments in any order, with any repeats, among any malformed or foreign
   * ones, all within 30 s of the first: the arrival that supplies the last missing index, and
   * no earlier one, returns COMPLETE, and what it completes is the config.
   */
  lemma CompletesExactly(slot: Slot, cfgId: bv16, config: seq<byte>, arrivals: seq<Arrival>, last: Arrival)
    requires Assembling(slot, cfgId, config)
    requires forall a :: a in arrivals ==> Indexed(a, config) && Admissible(a, cfgId, config, slot.firstUs)
    requires Admissible(last, cfgId, config, slot.firstUs)
    requires !Covers(slot.slices.Keys + Indices(arrivals), config)
    ensures var r := FeedSlot(RunArrivals(slot, cfgId, config, arrivals), PayloadOf(last, cfgId, config), last.at).1;
            && (r.Complete? <==> Covers(slot.slices.Keys + Indices(arrivals + [last]), config))
            && (r.Complete? ==> r.config == config)
  {
    hide FragCount, FeedSlot, PayloadOf, OwnSlices, AllPresent, KeyFor;
    StillAssembling(slot, cfgId, config, arrivals);
    var mid := RunArrivals(slot, cfgId, config, arrivals);
    ArrivalStep(mid, cfgId, config, last);
    if last.Mine? {
      assert Indices(arrivals + [last]) == Indices(arrivals) + {last.index};
      assert mid.slices[last.index := []].Keys == slot.slices.Keys + Indices(arrivals + [last]);
      CoversIff(mid.slices[last.index := []], config);
      if last.index in mid.slices {
        assert slot.slices.Keys + Indices(arrivals + [last]) == mid.slices.Keys;
        CoversIff(mid.slices, config);
      }
    } else {
      assert Indices(arrivals + [last]) == Indices(arrivals);
    }
  }

  /** The first fragment takes a free, or expired, slot and starts the assembly. */
  lemma FirstFragment(slot: Slot, cfgId: bv16, config: seq<byte>, index: nat, at: int)
    requires slot.Free? || Expired(slot, at)
    requires index < FragCount(|config|)
    ensures var (slot', r) := FeedSlot(slot, Fragment(cfgId, index, config), at);
            if FragCount(|config|) == 1 then slot' == Free && r == Complete(config)
            else r == NeedMore && Assembling(slot', cfgId, config) && slot'.firstUs == at && slot'.slices.Keys == {index}
  {
    hide Crc, HdrDecode, SliceLen, Slice, FragCount, Fragment;
    FragmentParses(cfgId, index, config);
    var slices := map[index := Slice(config, index)];
    if FragCount(|config|) == 1 {
      assert AllPresent(slices, 1);
      OwnSlicesJoin(slices, config, 1);
      CountCovers(|config|);
      assert config[..|config|] == config;
    } else {
      var other := if index == 0 then 1 else 0;
      assert other !in slices;
    }
  }

  // ---- COMPLETE in any history, exactly ------------------------------------------------------

  /** While fragment `missing` has not come since a live beginning, the slot holds that transaction. */
  lemma {:induction false} Follows(h: seq<Event>, first: nat, key: Key, missing: nat)
    requires Began(h, first, key) && Lasting(h, first)
    requires missing < key.total && NotYet(h, first, |h|, key, missing)
    ensures RunSlot(h).Active? && RunSlot(h).key == key && Explained(h, RunSlot(h), first)
    decreases |h|
  {
    hide FeedSlot, Store, Explained, HeaderIsSane, HdrDecode;
    var h', e := h[..|h| - 1], h[|h| - 1];
    assert h == h' + [e];
    if first == |h'| {
      FirstFollows(h', e, key, missing);
    } else {
      BeganSnoc(h', first, key, e);
      LastingSnoc(h', first, e);
      NotYetSnoc(h', first, key, missing, e);
      Follows(h', first, key, missing);
      ExplainedAt(h', RunSlot(h'), first, h);
      StepFollows(h', e, first, key, missing);
    }
  }

  lemma FirstFollows(h: seq<Event>, e: Event, key: Key, missing: nat)
    requires IsFragment(e) && KeyOf(HdrDecode(e.payload)) == key && (RunSlot(h).Free? || Expired(RunSlot(h), e.at))
    requires missing < key.total && !Carries(e, key, missing)
    ensures var slot := StepSlot(RunSlot(h), e); slot.Active? && slot.key == key && Explained(h + [e], slot, |h|)
  {
    hide FeedSlot, Explained, HeaderIsSane, HdrDecode, RunSlot, Crc, Joined;
    FragmentStep(RunSlot(h), e);
    FirstExplained(h, e);
    StoreWaits(Active(key, e.at, map[]), HdrDecode(e.payload).index, e.payload[HDR_SIZE..], missing);
  }

  lemma StoreWaits(slot: Slot, index: nat, slice: seq<byte>, missing: nat)
    requires slot.Active? && missing !in slot.slices && missing < slot.key.total && index != missing
    ensures index in slot.slices ==> Store(slot, index, slice).0 == slot
    ensures index !in slot.slices ==> Store(slot, index, slice).0 == slot.(slices := slot.slices[index := slice])
  {
    assert missing !in slot.slices[index := slice];
  }

  lemma StepFollows(h: seq<Event>, e: Event, first: nat, key: Key, missing: nat)
    requires RunSlot(h).Active? && RunSlot(h).key == key && Explained(h, RunSlot(h), first)
    requires !Ends(e, RunSlot(h).firstUs) && missing < key.total
    requires NotYet(h, first, |h|, key, missing) && !Carries(e, key, missing)
    ensures var slot := StepSlot(RunSlot(h), e); slot.Active? && slot.key == key && Explained(h + [e], slot, first)
  {
    hide FeedSlot, Explained, HeaderIsSane, HdrDecode, RunSlot, Crc, Joined;
    var slot := RunSlot(h);
    MissingIsMissing(h, slot, first, missing);
    if e.Fed? && IsFragment(e) {
      FragmentStep(slot, e);
      var i := HdrDecode(e.payload).index;
      if KeyOf(HdrDecode(e.payload)) == key {
        StoreWaits(slot, i, e.payload[HDR_SIZE..], missing);
      }
      if KeyOf(HdrDecode(e.payload)) == key && i !in slot.slices {
        StoreExplained(h, slot, first, e, i);
      } else {
        StillExplained(h, slot, first, e);
      }
    } else {
      if e.Fed? { OtherStep(slot, e); }
      StillExplained(h, slot, first, e);
    }
  }

  lemma MissingIsMissing(h: seq<Event>, slot: Slot, first: nat, missing: nat)
    requires slot.Active? && Explained(h, slot, first) && NotYet(h, first, |h|, slot.key, missing)
    ensures missing !in slot.slices
  {
    hide Carries, Began, Lasting;
  }

  /** A fragment index is brought once: one event, one slice. */
  lemma BringsOnce(h: seq<Event>, first: nat, k: nat, k': nat, key: Key, i: nat, slice: seq<byte>, slice': seq<byte>)
    requires Brings(h, first, k, key, i, slice) && Brings(h, first, k', key, i, slice')
    ensures k == k' && slice == slice'
  {
    hide Carries;
  }

  /** What explains the slots of a coherent history is the config's own slices. */
  lemma CoherentSlices(h: seq<Event>, config: seq<byte>, key: Key, first: nat, slot: Slot)
    requires Coherent(h, config, key, first) && slot.Active? && slot.key == key && Explained(h, slot, first)
    ensures OwnSlices(slot.slices, config) && AllPresent(slot.slices, key.total) && Joined(slot.slices, key.total) == config
  {
    hide Brings, Began, Lasting, BroughtLast, NotYet, FragCount, Crc, Joined;
    forall i: nat | i < key.total
      ensures i in slot.slices && slot.slices[i] == Slice(config, i)
    {
      assert Sourced(h, config, key, first, i);
      var k: nat :| Brings(h, first, k, key, i, Slice(config, i));
      CameBy(h, first, k, key, i, Slice(config, i));
      var k': nat :| Brings(h, first, k', key, i, slot.slices[i]);
      BringsOnce(h, first, k, k', key, i, Slice(config, i), slot.slices[i]);
    }
    CountCovers(|config|);
    OwnSlicesJoin(slot.slices, config, key.total);
  }

  lemma CameBy(h: seq<Event>, first: nat, k: nat, key: Key, i: nat, slice: seq<byte>)
    requires Brings(h, first, k, key, i, slice)
    ensures !NotYet(h, first, |h|, key, i)
  {
    hide Carries;
  }

  /**
   * A fragment completes a config exactly when, with it, the history holds a whole transaction
   * of that config: one that some event began, that nothing ended, and of which this fragment
   * is the last to arrive.
   */
  lemma CompleteIff(h: seq<Event>, payload: seq<byte>, at: int, config: seq<byte>)
    ensures FeedSlot(RunSlot(h), payload, at).1 == Complete(config) <==>
            exists key, first :: Coherent(h + [Fed(payload, at)], config, key, first)
  {
    hide FeedSlot, Coherent, RunSlot;
    if FeedSlot(RunSlot(h), payload, at).1 == Complete(config) {
      CompleteMeans(h, payload, at);
    }
    if key, first :| Coherent(h + [Fed(payload, at)], config, key, first) {
      CoherentCompletes(h, payload, at, config, key, first);
    }
  }

  lemma CoherentCompletes(h: seq<Event>, payload: seq<byte>, at: int, config: seq<byte>, key: Key, first: nat)
    requires Coherent(h + [Fed(payload, at)], config, key, first)
    ensures FeedSlot(RunSlot(h), payload, at).1 == Complete(config)
  {
    hide FeedSlot, RunSlot, Explained, Joined, Crc, FragCount, HdrDecode, HeaderIsSane, Sourced;
    var slot, e := RunSlot(h), Fed(payload, at);
    var h' := h + [e];
    assert h'[|h|] == e;
    var i: nat :| i < key.total && BroughtLast(h', first, key, i);
    FragmentStep(slot, e);
    var slice := payload[HDR_SIZE..];
    if first == |h| {
      assert h'[..first] == h;
      FirstExplained(h, e);
      CoherentSlices(h', config, key, first, Active(key, at, map[i := slice]));
    } else {
      BeganSnoc(h, first, key, e);
      LastingSnoc(h, first, e);
      BroughtLastSnoc(h, first, key, i, e);
      Follows(h, first, key, i);
      MissingIsMissing(h, slot, first, i);
      ExplainedAt(h, slot, first, h');
      StoreExplained(h, slot, first, e, i);
      CoherentSlices(h', config, key, first, slot.(slices := slot.slices[i := slice]));
    }
  }

  lemma BroughtLastSnoc(h: seq<Event>, first: nat, key: Key, i: nat, e: Event)
    requires BroughtLast(h + [e], first, key, i) && first < |h|
    ensures Carries(e, key, i) && NotYet(h, first, |h|, key, i)
  {
    hide Carries;
    var h' := h + [e];
    assert h'[|h|] == e;
    assert forall j :: 0 <= j < |h| ==> h'[j] == h[j];
  }

  lemma ExplainedAt(h: seq<Event>, slot: Slot, first: nat, h': seq<Event>)
    requires slot.Active? && Explained(h, slot, first) && h <= h'
    ensures first < |h| && h[first].Fed? && h'[first] == h[first] && slot.firstUs == h'[first].at
  {
    hide Brings, Lasting, NotYet;
  }

  // ---- the bytes and the cut themselves ----------------------------------------------------

  /** Where everything in a fragment's header is, most significant bytes first. */
  lemma HdrLayout(h: Hdr)
    requires h.index < 256 && h.total < 256 && h.totalLen < 0x1_0000
    ensures HdrEncode(h) == [Hi(h.cfgId), Lo(h.cfgId), U8(h.index), U8(h.total), U8(h.totalLen / 256), U8(h.totalLen % 256),
                             Hi(h.crcTotal), Lo(h.crcTotal)]
  {
    hide Hi, Lo, U8;
  }

  /** What follows the header is the slice that begins 200 bytes further on for each index. */
  lemma SliceIs(cfgId: bv16, index: nat, config: seq<byte>)
    requires index < FragCount(|config|)
    ensures index * 200 <= |config| && |Fragment(cfgId, index, config)| >= 8
    ensures Fragment(cfgId, index, config)[8..] == config[index * 200..Min(index * 200 + 200, |config|)]
  {
    hide Crc, HdrEncode, FragCount;
    SliceInRange(|config|, index);
  }

  /** A config is cut into as few pieces of at most 200 bytes as there can be, and at least one; 1600 bytes are the most. */
  lemma FewestPieces(len: nat)
    ensures FragCount(len) == 0 <==> len > 1600
    ensures len <= 1600 ==> 1 <= FragCount(len) <= 8 && len <= 200 * FragCount(len)
    ensures forall n: nat :: len <= 1600 && 1 <= n < FragCount(len) ==> 200 * n < len
  {
  }

  function Cut(cfgId: bv16, config: seq<byte>, n: nat): seq<byte>
    requires n <= FragCount(|config|)
  {
    if n == 0 then [] else Cut(cfgId, config, n - 1) + Fragment(cfgId, n - 1, config)[HDR_SIZE..]
  }

  /** Put end to end, what the fragments carry is the config. */
  lemma PiecesJoin(cfgId: bv16, config: seq<byte>)
    requires |config| <= 1600
    ensures Cut(cfgId, config, FragCount(|config|)) == config
  {
    hide FragCount, Cut;
    FewestPieces(|config|);
    CutIsPrefix(cfgId, config, FragCount(|config|));
  }

  lemma {:induction false} CutIsPrefix(cfgId: bv16, config: seq<byte>, n: nat)
    requires n <= FragCount(|config|)
    ensures Cut(cfgId, config, n) == config[..Min(n * 200, |config|)]
  {
    hide Fragment, FragCount;
    if n > 0 {
      CutIsPrefix(cfgId, config, n - 1);
      SliceIs(cfgId, n - 1, config);
      PrefixGrows(config, (n - 1) * 200, Min(n * 200, |config|));
    }
  }

  lemma PrefixGrows(s: seq<byte>, lo: nat, hi: nat)
    requires lo <= hi <= |s|
    ensures s[..lo] + s[lo..hi] == s[..hi]
  {
  }

  // ---- refusals ----------------------------------------------------------------------------

  /** A header is sane exactly when some fragment of a config of its length has its index and size. */
  lemma SaneIff(h: Hdr, sliceLen: nat)
    ensures HeaderIsSane(h, sliceLen) <==>
            h.totalLen <= 1600 && h.total == FragCount(h.totalLen) && h.index < h.total && sliceLen == Min(200, h.totalLen - 200 * h.index)
  {
    if h.index < FragCount(h.totalLen) {
      SliceInRange(h.totalLen, h.index);
    }
  }

  /** Why a payload is refused, and that a refusal of its header changes nothing. */
  lemma Refusals(slot: Slot, payload: seq<byte>, now: int)
    ensures var (slot', r) := FeedSlot(slot, payload, now);
            && (r == ErrTooLarge <==> |payload| >= 8 && HdrDecode(payload).totalLen > 1600)
            && (r == ErrHeader <==> |payload| < 8 || (HdrDecode(payload).totalLen <= 1600 && !HeaderIsSane(HdrDecode(payload), |payload| - 8)))
            && (r == ErrTooLarge || r == ErrHeader || r == ErrForeign ==> slot' == slot)
            && (r == ErrForeign <==> |payload| >= 8 && HeaderIsSane(HdrDecode(payload), |payload| - 8) &&
                                     slot.Active? && now - slot.firstUs < 30_000_000 && slot.key != KeyOf(HdrDecode(payload)))
            && (r == ErrCrc || r.Complete? ==> slot'.Free?)
  {
    hide HdrDecode, Crc, FragCount, SliceLen, Joined;
  }

  /** Each answer is counted under its own name, and a completed config, a repeat, a stranger and a bad checksum nowhere else. */
  lemma CountedOnce(s: Stats, r: Result)
    ensures var t := Count(s, CodeOf(r));
            && t.completed - s.completed == (if r.Complete? then 1 else 0) && t.duplicates - s.duplicates == (if r == Duplicate then 1 else 0)
            && t.foreign - s.foreign == (if r == ErrForeign then 1 else 0) && t.crcFail - s.crcFail == (if r == ErrCrc then 1 else 0)
            && t.timeouts == s.timeouts
  {
  }
}
