/**
 * The on-air frame: an 8-byte header, up to 220 payload bytes and a CRC-16, built and
 * parsed in place.
 */
module Frame {
  import opened Bytes
  import opened Crc16

  const MAGIC: byte := 0x4B
  const HEADER_SIZE := 8
  const CRC_SIZE := 2
  const MAX_PAYLOAD := 220
  const MIN_FRAME := 10
  const MTU := 230
  const BRIDGE_ID: bv16 := 0
  const BRIDGE_STAT_REQ: byte := 0x50
  const BRIDGE_STAT_RSP: byte := 0x51
  const ERR_TOO_SHORT := -1
  const ERR_TOO_LONG := -5

  datatype Header = Header(kind: byte, srcId: bv16, dstId: bv16, seqNo: byte, flags: byte)

  datatype View = View(hdr: Header, payload: seq<byte>, crcRx: bv16, crcCalc: bv16)

  datatype ParseResult =
    | Parsed(view: View)
    | UnknownType(view: View)
    | TooShort
    | TooLong
    | BadMagic
    | BadCrc
  {
    /** Intact, whether or not this build knows the type. */
    predicate Intact() {
      Parsed? || UnknownType?
    }
  }

  predicate TypeIsKnown(t: byte) {
    t in {0x01, 0x02, 0x03, 0x10, 0x11, 0x12, 0x13, 0x20, 0x21, 0x30, 0x31, 0x40, 0x41, 0x50, 0x51}
  }

  function EncodeHeader(h: Header): (s: seq<byte>)
    ensures |s| == HEADER_SIZE
  {
    [MAGIC, h.kind, Hi(h.srcId), Lo(h.srcId), Hi(h.dstId), Lo(h.dstId), h.seqNo, h.flags]
  }

  function DecodeHeader(buf: seq<byte>): Option<Header> {
    if |buf| < HEADER_SIZE || buf[0] != MAGIC then None
    else Some(Header(buf[1], Word16(buf[2], buf[3]), Word16(buf[4], buf[5]), buf[6], buf[7]))
  }

  /** Checks length, magic, checksum and type, in that order. */
  function Parse(buf: seq<byte>): ParseResult {
    if |buf| < MIN_FRAME then TooShort
    else if |buf| > MTU then TooLong
    else if buf[0] != MAGIC then BadMagic
    else
      var bodyLen := |buf| - CRC_SIZE;
      var crcRx := Word16(buf[bodyLen], buf[bodyLen + 1]);
      var crcCalc := Crc(buf[..bodyLen]);
      if crcRx != crcCalc then BadCrc
      else match DecodeHeader(buf[..bodyLen])
        case None => BadMagic
        case Some(hdr) =>
          var view := View(hdr, buf[HEADER_SIZE..bodyLen], crcRx, crcCalc);
          if TypeIsKnown(hdr.kind) then Parsed(view) else UnknownType(view)
  }

  /** The wire form of a frame. */
  function Wire(h: Header, payload: seq<byte>): (f: seq<byte>)
    ensures |f| == HEADER_SIZE + |payload| + CRC_SIZE
  {
    var body := EncodeHeader(h) + payload;
    body + [Hi(Crc(body)), Lo(Crc(body))]
  }

  /** Builds a frame in a caller's buffer, or refuses without writing. */
  method FrameBuild(h: Header, payload: seq<byte>, out: array<byte>) returns (r: int)
    modifies out
    ensures |payload| > MAX_PAYLOAD ==> r == ERR_TOO_LONG
    ensures |payload| <= MAX_PAYLOAD && out.Length < HEADER_SIZE + |payload| + CRC_SIZE ==> r == ERR_TOO_SHORT
    ensures r < 0 ==> out[..] == old(out[..])
    ensures |payload| <= MAX_PAYLOAD && out.Length >= HEADER_SIZE + |payload| + CRC_SIZE
            ==> r == |Wire(h, payload)| && out[..r] == Wire(h, payload) && out[r..] == old(out[r..])
  {
    hide Hi, Lo, EncodeHeader;
    if |payload| > MAX_PAYLOAD { return ERR_TOO_LONG; }
    var total := HEADER_SIZE + |payload| + CRC_SIZE;
    if out.Length < total { return ERR_TOO_SHORT; }

    CopyInto(EncodeHeader(h), out, 0);
    CopyInto(payload, out, HEADER_SIZE);
    var bodyLen := HEADER_SIZE + |payload|;
    assert out[..bodyLen] == EncodeHeader(h) + payload;
    assert out[total..] == old(out[total..]);
    var crc := Crc16.Crc16(out[..bodyLen]);
    CopyInto([Hi(crc), Lo(crc)], out, bodyLen);
    assert out[..total] == EncodeHeader(h) + payload + [Hi(crc), Lo(crc)];
    assert out[total..] == old(out[total..]);
    return total;
  }

  lemma Halves(c: bv16)
    ensures Word16(Hi(c), Lo(c)) == c
  {
  }

  lemma WholeHalves(hi: byte, lo: byte)
    ensures Hi(Word16(hi, lo)) == hi && Lo(Word16(hi, lo)) == lo
  {
  }

  /** What was built is what is parsed, whatever the header and payload. */
  lemma ParseWire(h: Header, payload: seq<byte>)
    requires |payload| <= MAX_PAYLOAD
    ensures var f := Wire(h, payload); var c := Crc(EncodeHeader(h) + payload);
            Parse(f) == if TypeIsKnown(h.kind) then Parsed(View(h, payload, c, c)) else UnknownType(View(h, payload, c, c))
  {
    hide Hi, Lo, Word16, Crc, TypeIsKnown;
    var body := EncodeHeader(h) + payload;
    var f := Wire(h, payload);
    assert f[..|f| - 2] == body;
    Halves(Crc(body));
    Halves(h.srcId);
    Halves(h.dstId);
    assert DecodeHeader(body) == Some(h);
    assert f[HEADER_SIZE..|f| - 2] == payload;
  }

  /** Only built frames parse: an intact frame is the wire form of the header and payload it yields. */
  lemma IntactIffBuilt(f: seq<byte>)
    ensures Parse(f).Intact() <==> exists h, p :: |p| <= MAX_PAYLOAD && f == Wire(h, p)
    ensures Parse(f).Intact() ==> f == Wire(Parse(f).view.hdr, Parse(f).view.payload) && |Parse(f).view.payload| <= MAX_PAYLOAD
  {
    hide Hi, Lo, Word16, Crc, TypeIsKnown, Wire, EncodeHeader;
    if Parse(f).Intact() {
      IntactIsWire(f);
    }
    if h, p :| |p| <= MAX_PAYLOAD && f == Wire(h, p) {
      ParseWire(h, p);
    }
  }

  lemma IntactIsWire(f: seq<byte>)
    requires Parse(f).Intact()
    ensures f == Wire(Parse(f).view.hdr, Parse(f).view.payload) && |Parse(f).view.payload| <= MAX_PAYLOAD
  {
    hide Hi, Lo, Word16, Crc, TypeIsKnown;
    var n := |f| - 2;
    WholeHalves(f[2], f[3]);
    WholeHalves(f[4], f[5]);
    WholeHalves(f[n], f[n + 1]);
    var view := Parse(f).view;
    assert EncodeHeader(view.hdr) == f[..8];
    assert EncodeHeader(view.hdr) + view.payload == f[..n];
  }

  /** The parser's checksum test, in terms of a checked byte string. */
  lemma IntactIff(f: seq<byte>)
    requires MIN_FRAME <= |f| <= MTU
    ensures Parse(f).Intact() <==> f[0] == MAGIC && Checked(f)
  {
    hide Hi, Lo, Word16, Crc, TypeIsKnown;
    var n := |f| - 2;
    CheckedMeans(f);
    Word16Halves(Crc(f[..n]), f[n], f[n + 1]);
  }

  /** Which damage a frame survives: exactly that which keeps the magic byte and empties the register. */
  lemma DamagedFrameIntactIff(f: seq<byte>, g: seq<byte>)
    requires Parse(f).Intact() && |g| == |f|
    ensures Parse(g).Intact() <==> g[0] == MAGIC && Reg(ZERO, Diff(Bits(f), Bits(g))) == ZERO
  {
    hide Checked, Reg, Bits, Diff, Word16, Crc, TypeIsKnown;
    IntactIff(f);
    IntactIff(g);
    UndetectedIff(f, g);
  }

  /** An odd number of flipped bits, or any damage within sixteen consecutive bits, is refused. */
  lemma DamagedFrameRefused(f: seq<byte>, g: seq<byte>)
    requires Parse(f).Intact() && |g| == |f|
    requires Ones(Diff(Bits(f), Bits(g))) % 2 == 1 || exists k :: Burst(Diff(Bits(f), Bits(g)), k)
    ensures Parse(g) == BadMagic || Parse(g) == BadCrc
  {
    hide Checked, Reg, Bits, Diff, Ones, Burst, Word16, Crc, TypeIsKnown;
    IntactIff(f);
    IntactIff(g);
    if Ones(Diff(Bits(f), Bits(g))) % 2 == 1 {
      OddDamageDetected(f, g);
    } else {
      var k :| Burst(Diff(Bits(f), Bits(g)), k);
      BurstDamageDetected(f, g, k);
    }
  }

  /** Changing one byte, as the link simulator does, is refused. */
  lemma ByteDamageRefused(f: seq<byte>, i: nat, v: byte)
    requires Parse(f).Intact() && i < |f| && v != f[i]
    ensures Parse(f[i := v]) == BadMagic || Parse(f[i := v]) == BadCrc
  {
    hide Checked, Word16, Crc, TypeIsKnown;
    IntactIff(f);
    IntactIff(f[i := v]);
    ByteDamageDetected(f, i, v);
  }

  // ---- the bytes themselves -------------------------------------------------------------

  /** Where everything is: most significant bytes first, the checksum over all that precedes it last. */
  lemma WireLayout(h: Header, payload: seq<byte>)
    ensures var f := Wire(h, payload); var n := |payload|;
            && |f| == n + 10
            && f[0] == 0x4B && f[1] == h.kind && f[6] == h.seqNo && f[7] == h.flags && f[8..n + 8] == payload
            && ((f[2] as bv16) << 8) + (f[3] as bv16) == h.srcId
            && ((f[4] as bv16) << 8) + (f[5] as bv16) == h.dstId
            && ((f[n + 8] as bv16) << 8) + (f[n + 9] as bv16) == Crc(f[..n + 8])
  {
    hide Crc, Hi, Lo;
    var f := Wire(h, payload);
    assert f[..|payload| + 8] == EncodeHeader(h) + payload;
    HalvesAdd(h.srcId);
    HalvesAdd(h.dstId);
    HalvesAdd(Crc(EncodeHeader(h) + payload));
  }

  /** The types this build knows, by group. */
  lemma KnownTypes(t: byte)
    ensures TypeIsKnown(t) <==>
            || 0x01 <= t <= 0x03 || 0x10 <= t <= 0x13 || 0x20 <= t <= 0x21 || 0x30 <= t <= 0x31 || 0x40 <= t <= 0x41 || 0x50 <= t <= 0x51
  {
  }
}
