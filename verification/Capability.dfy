/**
 * The capability report: what a node is made of, in one CBOR map. Decoding tolerates keys and
 * component fields that a newer node may add.
 */
module Capability {
  import opened Bytes
  import opened Cbor

  const CAP_MAX := 8
  const FIELDS := 5
  const KEY_FW := 1
  const KEY_HEAP := 2
  const KEY_COMPONENTS := 3
  const WORST_CASE := 109

  datatype Capability = Capability(typeId: nat, busAddr: nat, busType: nat, channels: nat, flags: nat)

  datatype Report = Report(fwVersion: nat, freeHeapKb: nat, caps: seq<Capability>)

  predicate CapInRange(c: Capability) {
    c.typeId < 0x1_0000 && c.busAddr < 256 && c.busType < 256 && c.channels < 256 && c.flags < 256
  }

  predicate AllInRange(caps: seq<Capability>) {
    forall k :: 0 <= k < |caps| ==> CapInRange(caps[k])
  }

  lemma PartsInRange(caps: seq<Capability>)
    requires caps != [] && AllInRange(caps)
    ensures CapInRange(caps[0]) && AllInRange(caps[1..]) && CapInRange(caps[|caps| - 1]) && AllInRange(caps[..|caps| - 1])
  {
    hide CapInRange;
  }

  /** What the report's field widths can hold. */
  predicate ReportInRange(r: Report) {
    r.fwVersion < TWO32 && r.freeHeapKb < 0x1_0000 && AllInRange(r.caps)
  }

  // ---- encoding -------------------------------------------------------------------------

  function Uint(n: nat): seq<byte>
    requires n < TWO64
  {
    Canonical(UINT, n)
  }

  function CapBytes(c: Capability): seq<byte>
    requires CapInRange(c)
  {
    Canonical(ARRAY, FIELDS) + Uint(c.typeId) + Uint(c.busAddr) + Uint(c.busType) + Uint(c.channels) + Uint(c.flags)
  }

  function CapsBytes(caps: seq<Capability>): seq<byte>
    requires AllInRange(caps)
  {
    if caps == [] then [] else CapsBytes(caps[..|caps| - 1]) + CapBytes(caps[|caps| - 1])
  }

  function Envelope(r: Report): seq<byte>
    requires ReportInRange(r) && |r.caps| <= CAP_MAX
  {
    Canonical(MAP, 3) + Uint(KEY_FW) + Uint(r.fwVersion) + Uint(KEY_HEAP) + Uint(r.freeHeapKb)
    + Uint(KEY_COMPONENTS) + Canonical(ARRAY, |r.caps|)
  }

  function ReportBytes(r: Report): seq<byte>
    requires ReportInRange(r) && |r.caps| <= CAP_MAX
  {
    Envelope(r) + CapsBytes(r.caps)
  }

  /** Encodes a report; negative if it holds too many components or does not fit. */
  method Encode(r: Report, out: array<byte>) returns (len: int)
    requires ReportInRange(r) && out.Length <= MAX_LEN
    modifies out
    ensures len == -1 || len >= 0
    ensures len >= 0 <==> |r.caps| <= CAP_MAX && |ReportBytes(r)| <= out.Length
    ensures len >= 0 ==> len == |ReportBytes(r)| && out[..len] == ReportBytes(r)
  {
    hide Envelope, CapsBytes;
    if |r.caps| > CAP_MAX { return -1; }
    var w := new Writer(out);
    WriteEnvelope(w, r);
    WriteCaps(w, r.caps, Envelope(r));
    len := w.Finish();
  }

  method WriteCaps(w: Writer, caps: seq<Capability>, ghost s: seq<byte>)
    requires w.Wrote(s) && AllInRange(caps)
    modifies w, w.out
    ensures w.Wrote(s + CapsBytes(caps))
  {
    hide CapBytes, CapInRange, Writer.Wrote;
    assert s + CapsBytes(caps[..0]) == s;
    for i := 0 to |caps|
      invariant w.Wrote(s + CapsBytes(caps[..i]))
    {
      assert caps[..i + 1][..i] == caps[..i];
      WriteCap(w, caps[i], s + CapsBytes(caps[..i]));
      assert s + CapsBytes(caps[..i]) + CapBytes(caps[i]) == s + CapsBytes(caps[..i + 1]);
    }
    assert caps[..|caps|] == caps;
  }

  method WriteEnvelope(w: Writer, r: Report)
    requires w.Wrote([]) && ReportInRange(r) && |r.caps| <= CAP_MAX
    modifies w, w.out
    ensures w.Wrote(Envelope(r))
  {
    hide Canonical, Shortest, Writer.Wrote;
    ghost var s := [];
    w.WriteMap(3, s);
    s := s + Canonical(MAP, 3);
    w.WriteUint(KEY_FW, s);
    s := s + Uint(KEY_FW);
    w.WriteUint(r.fwVersion, s);
    s := s + Uint(r.fwVersion);
    w.WriteUint(KEY_HEAP, s);
    s := s + Uint(KEY_HEAP);
    w.WriteUint(r.freeHeapKb, s);
    s := s + Uint(r.freeHeapKb);
    w.WriteUint(KEY_COMPONENTS, s);
    s := s + Uint(KEY_COMPONENTS);
    w.WriteArray(|r.caps|, s);
    s := s + Canonical(ARRAY, |r.caps|);
    assert s == Envelope(r);
  }

  method WriteCap(w: Writer, c: Capability, ghost s: seq<byte>)
    requires w.Wrote(s) && CapInRange(c)
    modifies w, w.out
    ensures w.Wrote(s + CapBytes(c))
  {
    hide Canonical, Shortest, Writer.Wrote;
    ghost var t := s;
    w.WriteArray(FIELDS, t);
    t := t + Canonical(ARRAY, FIELDS);
    w.WriteUint(c.typeId, t);
    t := t + Uint(c.typeId);
    w.WriteUint(c.busAddr, t);
    t := t + Uint(c.busAddr);
    w.WriteUint(c.busType, t);
    t := t + Uint(c.busType);
    w.WriteUint(c.channels, t);
    t := t + Uint(c.channels);
    w.WriteUint(c.flags, t);
    t := t + Uint(c.flags);
    assert t == s + CapBytes(c);
  }

  lemma UintSize(n: nat)
    requires n < TWO64
    ensures |Uint(n)| == if n < 24 then 1 else if n < 0x100 then 2 else if n < 0x1_0000 then 3 else if n < TWO32 then 5 else 9
  {
    hide Pow256;
  }

  lemma HeadSize(major: nat, n: nat)
    requires major < 8 && n < 24
    ensures |Canonical(major, n)| == 1
  {
    hide Pow256;
  }

  lemma CapSize(c: Capability)
    requires CapInRange(c)
    ensures |CapBytes(c)| <= 12
    ensures WideFields(c) ==> |CapBytes(c)| == 12
  {
    HeadSize(ARRAY, FIELDS);
    UintSize(c.typeId);
    UintSize(c.busAddr);
    UintSize(c.busType);
    UintSize(c.channels);
    UintSize(c.flags);
    hide Canonical, Uint;
  }

  lemma {:induction false} CapsSize(caps: seq<Capability>)
    requires AllInRange(caps)
    ensures |CapsBytes(caps)| <= 12 * |caps|
    ensures (forall k :: 0 <= k < |caps| ==> |CapBytes(caps[k])| == 12) ==> |CapsBytes(caps)| == 12 * |caps|
  {
    hide CapBytes;
    if caps != [] {
      CapsSize(caps[..|caps| - 1]);
      CapSize(caps[|caps| - 1]);
    }
  }

  lemma EnvelopeSize(r: Report)
    requires ReportInRange(r) && |r.caps| <= CAP_MAX
    ensures |Envelope(r)| <= 13
    ensures r.fwVersion >= 0x1_0000 && r.freeHeapKb >= 0x100 ==> |Envelope(r)| == 13
  {
    HeadSize(MAP, 3);
    HeadSize(ARRAY, |r.caps|);
    UintSize(KEY_FW);
    UintSize(KEY_HEAP);
    UintSize(KEY_COMPONENTS);
    UintSize(r.fwVersion);
    UintSize(r.freeHeapKb);
    hide Canonical, Uint;
  }

  /** No report is longer than 109 bytes, and some report is. */
  lemma SizeBound(r: Report)
    requires ReportInRange(r) && |r.caps| <= CAP_MAX
    ensures |ReportBytes(r)| <= WORST_CASE
    ensures exists q :: ReportInRange(q) && |q.caps| <= CAP_MAX && |ReportBytes(q)| == WORST_CASE
  {
    hide Envelope, CapsBytes, AllInRange;
    EnvelopeSize(r);
    CapsSize(r.caps);
    var q := LargestReport();
  }

  /** Every field wide, in eight components: exactly the bound. */
  lemma FullSize(r: Report)
    requires ReportInRange(r) && |r.caps| == CAP_MAX && r.fwVersion >= 0x1_0000 && r.freeHeapKb >= 0x100
    requires forall k :: 0 <= k < |r.caps| ==> WideFields(r.caps[k])
    ensures |ReportBytes(r)| == WORST_CASE
  {
    hide Envelope, CapsBytes, CapBytes;
    EnvelopeSize(r);
    forall k | 0 <= k < |r.caps|
      ensures |CapBytes(r.caps[k])| == 12
    {
      CapSize(r.caps[k]);
    }
    CapsSize(r.caps);
  }

  predicate WideFields(c: Capability) {
    c.typeId >= 0x100 && c.busAddr >= 24 && c.busType >= 24 && c.channels >= 24 && c.flags >= 24
  }

  lemma LargestReport() returns (q: Report)
    ensures ReportInRange(q) && |q.caps| <= CAP_MAX && |ReportBytes(q)| == WORST_CASE
  {
    hide Envelope, CapsBytes, CapBytes, ReportBytes;
    var c := Capability(0xFFFF, 255, 255, 255, 255);
    q := Report(0xFFFF_FFFF, 0xFFFF, [c, c, c, c, c, c, c, c]);
    FullSize(q);
  }

  // ---- decoding -------------------------------------------------------------------------

  function TakeUints(s: seq<byte>, n: nat): (r: Option<(seq<nat>, seq<byte>)>)
    ensures r.Some? ==> |r.value.0| == n
    decreases n
  {
    if n == 0 then Some(([], s)) else
      match TakeTyped(s, UINT)
      case None => None
      case Some((v, rest)) =>
        match TakeUints(rest, n - 1)
        case None => None
        case Some((vs, end)) => Some(([v] + vs, end))
  }

  function SkipMany(s: seq<byte>, n: nat): Option<seq<byte>>
    decreases n
  {
    if n == 0 then Some(s) else
      match Skip(s)
      case None => None
      case Some(rest) => SkipMany(rest, n - 1)
  }

  function CapOf(v: seq<nat>): Capability
    requires |v| == FIELDS
  {
    Capability(v[0], v[1], v[2], v[3], v[4])
  }

  /** One component: five numbers in range, and whatever fields a newer node adds. */
  function TakeCap(s: seq<byte>): Option<(Capability, seq<byte>)> {
    match TakeArray(s)
    case None => None
    case Some((fields, rest)) =>
      if fields < FIELDS then None else
        match TakeUints(rest, FIELDS)
        case None => None
        case Some((v, extras)) =>
          match SkipMany(extras, fields - FIELDS)
          case None => None
          case Some(end) => if CapInRange(CapOf(v)) then Some((CapOf(v), end)) else None
  }

  function TakeCaps(s: seq<byte>, n: nat): Option<(seq<Capability>, seq<byte>)>
    decreases n
  {
    if n == 0 then Some(([], s)) else
      match TakeCap(s)
      case None => None
      case Some((c, rest)) =>
        match TakeCaps(rest, n - 1)
        case None => None
        case Some((cs, end)) => Some(([c] + cs, end))
  }

  /** One key and its value, over the report so far. */
  function TakePair(s: seq<byte>, r: Report): Option<(Report, seq<byte>)> {
    match TakeTyped(s, UINT)
    case None => None
    case Some((key, rest)) =>
      if key == KEY_FW then
        match TakeTyped(rest, UINT)
        case None => None
        case Some((v, end)) => if v < TWO32 then Some((r.(fwVersion := v), end)) else None
      else if key == KEY_HEAP then
        match TakeTyped(rest, UINT)
        case None => None
        case Some((v, end)) => if v < 0x1_0000 then Some((r.(freeHeapKb := v), end)) else None
      else if key == KEY_COMPONENTS then
        match TakeArray(rest)
        case None => None
        case Some((count, entries)) =>
          if count > CAP_MAX then None else
            match TakeCaps(entries, count)
            case None => None
            case Some((caps, end)) => Some((r.(caps := caps), end))
      else
        match Skip(rest)
        case None => None
        case Some(end) => Some((r, end))
  }

  function TakePairs(s: seq<byte>, n: nat, r: Report): Option<Report>
    decreases n
  {
    if n == 0 then Some(r) else
      match TakePair(s, r)
      case None => None
      case Some((r', rest)) => TakePairs(rest, n - 1, r')
  }

  /** The report a message holds; later values of a repeated key win. */
  function Decoded(s: seq<byte>): Option<Report> {
    match TakeMap(s)
    case None => None
    case Some((pairs, rest)) => TakePairs(rest, pairs, Report(0, 0, []))
  }

  method DecodeEntry(reader: Reader) returns (ok: bool, c: Capability)
    requires reader.Valid() && !reader.error
    modifies reader
    ensures reader.Valid() && ok == TakeCap(old(reader.Rest())).Some?
    ensures ok ==> TakeCap(old(reader.Rest())) == Some((c, reader.Rest())) && !reader.error
  {
    hide TakeTyped, TakeArray, TakeUints, SkipMany;
    c := Capability(0, 0, 0, 0, 0);
    var fields, values;
    ok, fields := reader.ReadArray();
    if !ok || fields < FIELDS { return false, c; }
    ok, values := DecodeFields(reader);
    if !ok { return; }
    ok := SkipExtras(reader, fields - FIELDS);
    if !ok { return; }
    if values[0] > 0xFFFF { return false, c; }
    if values[1] > 0xFF { return false, c; }
    if values[2] > 0xFF { return false, c; }
    if values[3] > 0xFF { return false, c; }
    if values[4] > 0xFF { return false, c; }
    return true, CapOf(values);
  }

  method DecodeFields(reader: Reader) returns (ok: bool, values: seq<nat>)
    requires reader.Valid() && !reader.error
    modifies reader
    ensures reader.Valid() && ok == TakeUints(old(reader.Rest()), FIELDS).Some?
    ensures ok ==> TakeUints(old(reader.Rest()), FIELDS) == Some((values, reader.Rest())) && !reader.error
  {
    hide TakeTyped;
    ghost var s := reader.Rest();
    values := [];
    BehindNothing(TakeUints(s, FIELDS));
    for i := 0 to FIELDS
      invariant reader.Valid() && !reader.error && |values| == i
      invariant TakeUints(s, FIELDS) == Behind(values, TakeUints(reader.Rest(), FIELDS - i))
    {
      ghost var here := reader.Rest();
      var value;
      ok, value := reader.ReadUint();
      BehindUint(values, here, FIELDS - i);
      if !ok { return; }
      values := values + [value];
    }
    assert values + [] == values;
    ok := true;
  }

  method SkipExtras(reader: Reader, extras: nat) returns (ok: bool)
    requires reader.Valid() && !reader.error
    modifies reader
    ensures reader.Valid() && ok == SkipMany(old(reader.Rest()), extras).Some?
    ensures ok ==> SkipMany(old(reader.Rest()), extras) == Some(reader.Rest()) && !reader.error
  {
    hide Skip;
    ghost var s := reader.Rest();
    for i := 0 to extras
      invariant reader.Valid() && !reader.error
      invariant SkipMany(s, extras) == SkipMany(reader.Rest(), extras - i)
    {
      ok := reader.SkipItem();
      if !ok { return; }
    }
    ok := true;
  }

  /** A list already read, in front of what reading on gives. */
  function Behind<T>(read: seq<T>, r: Option<(seq<T>, seq<byte>)>): Option<(seq<T>, seq<byte>)> {
    match r
    case None => None
    case Some((more, rest)) => Some((read + more, rest))
  }

  lemma BehindNothing<T>(r: Option<(seq<T>, seq<byte>)>)
    ensures Behind([], r) == r
  {
    if r.Some? {
      assert [] + r.value.0 == r.value.0;
    }
  }

  lemma BehindUint(read: seq<nat>, s: seq<byte>, n: nat)
    requires n > 0
    ensures Behind(read, TakeUints(s, n)) ==
            match TakeTyped(s, UINT)
            case None => None
            case Some((v, rest)) => Behind(read + [v], TakeUints(rest, n - 1))
  {
    hide TakeTyped;
    if TakeUints(s, n).Some? {
      var (v, rest) := TakeTyped(s, UINT).value;
      assert read + [v] + TakeUints(rest, n - 1).value.0 == read + TakeUints(s, n).value.0;
    }
  }

  lemma BehindCap(read: seq<Capability>, s: seq<byte>, n: nat)
    requires n > 0
    ensures Behind(read, TakeCaps(s, n)) ==
            match TakeCap(s)
            case None => None
            case Some((c, rest)) => Behind(read + [c], TakeCaps(rest, n - 1))
  {
    hide TakeCap;
    if TakeCaps(s, n).Some? {
      var (c, rest) := TakeCap(s).value;
      assert read + [c] + TakeCaps(rest, n - 1).value.0 == read + TakeCaps(s, n).value.0;
    }
  }

  /** Reads a report back; any malformed, truncated or out-of-range part refuses the whole. */
  method Decode(buf: seq<byte>) returns (ok: bool, r: Report)
    requires |buf| <= MAX_LEN
    ensures ok == Decoded(buf).Some?
    ensures ok ==> Decoded(buf) == Some(r)
  {
    hide TakeMap, TakePair;
    r := Report(0, 0, []);
    var reader := new Reader(buf);
    var pairs;
    ok, pairs := reader.ReadMap();
    if !ok { return; }
    ghost var s := reader.Rest();
    for pair := 0 to pairs
      invariant reader.Valid() && !reader.error && fresh(reader)
      invariant TakePairs(s, pairs, Report(0, 0, [])) == TakePairs(reader.Rest(), pairs - pair, r)
    {
      ok, r := DecodePair(reader, r);
      if !ok { return; }
    }
    ok := true;
  }

  method DecodePair(reader: Reader, r: Report) returns (ok: bool, r': Report)
    requires reader.Valid() && !reader.error
    modifies reader
    ensures reader.Valid() && ok == TakePair(old(reader.Rest()), r).Some?
    ensures ok ==> TakePair(old(reader.Rest()), r) == Some((r', reader.Rest())) && !reader.error
  {
    hide TakeTyped, TakeArray, TakeCap, Skip;
    r' := r;
    var key, value;
    ok, key := reader.ReadUint();
    if !ok { return; }
    if key == KEY_FW {
      ok, value := reader.ReadUint();
      if !ok { return; }
      if value > 0xFFFF_FFFF { return false, r; }
      r' := r.(fwVersion := value);
    } else if key == KEY_HEAP {
      ok, value := reader.ReadUint();
      if !ok { return; }
      if value > 0xFFFF { return false, r; }
      r' := r.(freeHeapKb := value);
    } else if key == KEY_COMPONENTS {
      var count;
      ok, count := reader.ReadArray();
      if !ok { return; }
      if count > CAP_MAX { return false, r; }
      ghost var s := reader.Rest();
      var caps: seq<Capability> := [];
      BehindNothing(TakeCaps(s, count));
      for i := 0 to count
        invariant reader.Valid() && !reader.error && |caps| == i
        invariant TakeCaps(s, count) == Behind(caps, TakeCaps(reader.Rest(), count - i))
      {
        ghost var here := reader.Rest();
        var c;
        ok, c := DecodeEntry(reader);
        BehindCap(caps, here, count - i);
        if !ok { return; }
        caps := caps + [c];
      }
      assert caps + [] == caps;
      r' := r.(caps := caps);
    } else {
      ok := reader.SkipItem();
    }
  }

  /** Field by field; equal exactly when the reports are. */
  method ReportsEqual(a: Report, b: Report) returns (eq: bool)
    ensures eq <==> a == b
  {
    if |a.caps| != |b.caps| { return false; }
    if a.fwVersion != b.fwVersion { return false; }
    if a.freeHeapKb != b.freeHeapKb { return false; }
    for i := 0 to |a.caps|
      invariant a.caps[..i] == b.caps[..i]
    {
      if a.caps[i].typeId != b.caps[i].typeId { return false; }
      if a.caps[i].busAddr != b.caps[i].busAddr { return false; }
      if a.caps[i].busType != b.caps[i].busType { return false; }
      if a.caps[i].channels != b.caps[i].channels { return false; }
      if a.caps[i].flags != b.caps[i].flags { return false; }
    }
    assert a.caps[..|a.caps|] == a.caps && b.caps[..|a.caps|] == b.caps;
    return true;
  }

  // ---- what any message means -------------------------------------------------------------

  /** An unsigned number in some head width. */
  datatype Num = Num(n: nat, w: nat)

  /** A component: the fields this build knows, then those it does not. */
  datatype Component = Component(values: seq<Num>, extras: seq<Item>, w: nat)

  datatype Body = Value(v: Num) | Parts(comps: seq<Component>, w: nat) | Other(item: Item)

  /** A key and what follows it. */
  datatype Entry = Entry(key: Num, body: Body)

  predicate NumOk(x: Num) {
    Fits(x.n, x.w)
  }

  predicate NumsOk(xs: seq<Num>) {
    xs == [] || (NumOk(xs[0]) && NumsOk(xs[1..]))
  }

  function NumBytes(x: Num): (s: seq<byte>)
    requires NumOk(x)
    ensures |s| >= 1
  {
    HeadBytes(UINT, x.n, x.w)
  }

  function NumsBytes(xs: seq<Num>): (s: seq<byte>)
    requires NumsOk(xs)
    ensures |s| >= |xs|
  {
    if xs == [] then [] else NumBytes(xs[0]) + NumsBytes(xs[1..])
  }

  function Values(xs: seq<Num>): (v: seq<nat>)
    ensures |v| == |xs|
  {
    if xs == [] then [] else [xs[0].n] + Values(xs[1..])
  }

  /** Unknown fields are a problem only when there are fewer fields than known ones. */
  predicate ComponentOk(c: Component) {
    && NumsOk(c.values) && AllWalkable(c.extras) && Fits(|c.values| + |c.extras|, c.w)
    && |c.values| <= FIELDS && (|c.values| < FIELDS ==> c.extras == [])
  }

  function ComponentBytes(c: Component): (s: seq<byte>)
    requires ComponentOk(c)
    ensures |s| >= 1
  {
    HeadBytes(ARRAY, |c.values| + |c.extras|, c.w) + NumsBytes(c.values) + Encodings(c.extras)
  }

  /** Each item on its own is one the skipper can step over. */
  predicate Skippable(items: seq<Item>) {
    items == [] || (Containers(items[0]) <= SKIP_MAX_DEPTH && Skippable(items[1..]))
  }

  predicate ComponentAccepted(c: Component) {
    |c.values| == FIELDS && Skippable(c.extras) && CapInRange(CapOf(Values(c.values)))
  }

  predicate ComponentsOk(cs: seq<Component>) {
    cs == [] || (ComponentOk(cs[0]) && ComponentsOk(cs[1..]))
  }

  predicate ComponentsAccepted(cs: seq<Component>) {
    cs == [] || (ComponentAccepted(cs[0]) && ComponentsAccepted(cs[1..]))
  }

  function ComponentsBytes(cs: seq<Component>): (s: seq<byte>)
    requires ComponentsOk(cs)
    ensures |s| >= |cs|
  {
    if cs == [] then [] else ComponentBytes(cs[0]) + ComponentsBytes(cs[1..])
  }

  function Caps(cs: seq<Component>): seq<Capability>
    requires ComponentsAccepted(cs)
  {
    if cs == [] then [] else [CapOf(Values(cs[0].values))] + Caps(cs[1..])
  }

  predicate EntryOk(e: Entry) {
    && NumOk(e.key)
    && if e.key.n == KEY_FW || e.key.n == KEY_HEAP then e.body.Value? && NumOk(e.body.v)
       else if e.key.n == KEY_COMPONENTS then e.body.Parts? && ComponentsOk(e.body.comps) && Fits(|e.body.comps|, e.body.w)
       else e.body.Other? && Walkable(e.body.item)
  }

  function BodyBytes(e: Entry): (s: seq<byte>)
    requires EntryOk(e)
    ensures |s| >= 1
  {
    match e.body
    case Value(v) => NumBytes(v)
    case Parts(comps, w) => HeadBytes(ARRAY, |comps|, w) + ComponentsBytes(comps)
    case Other(item) => Encoding(item)
  }

  function EntryBytes(e: Entry): (s: seq<byte>)
    requires EntryOk(e)
    ensures |s| >= 2
  {
    NumBytes(e.key) + BodyBytes(e)
  }

  predicate EntryAccepted(e: Entry)
    requires EntryOk(e)
  {
    if e.key.n == KEY_FW then e.body.v.n < TWO32
    else if e.key.n == KEY_HEAP then e.body.v.n < 0x1_0000
    else if e.key.n == KEY_COMPONENTS then |e.body.comps| <= CAP_MAX && ComponentsAccepted(e.body.comps)
    else Containers(e.body.item) <= SKIP_MAX_DEPTH
  }

  /** What an entry does to the report: nothing, if its key is unknown. */
  function Apply(e: Entry, r: Report): Report
    requires EntryOk(e) && EntryAccepted(e)
  {
    if e.key.n == KEY_FW then r.(fwVersion := e.body.v.n)
    else if e.key.n == KEY_HEAP then r.(freeHeapKb := e.body.v.n)
    else if e.key.n == KEY_COMPONENTS then r.(caps := Caps(e.body.comps))
    else r
  }

  predicate EntriesOk(es: seq<Entry>) {
    es == [] || (EntryOk(es[0]) && EntriesOk(es[1..]))
  }

  function EntriesBytes(es: seq<Entry>): (s: seq<byte>)
    requires EntriesOk(es)
    ensures |s| >= 2 * |es|
  {
    if es == [] then [] else EntryBytes(es[0]) + EntriesBytes(es[1..])
  }

  predicate EntriesAccepted(es: seq<Entry>)
    requires EntriesOk(es)
  {
    es == [] || (EntryAccepted(es[0]) && EntriesAccepted(es[1..]))
  }

  function ApplyAll(es: seq<Entry>, r: Report): Report
    requires EntriesOk(es) && EntriesAccepted(es)
  {
    if es == [] then r else ApplyAll(es[1..], Apply(es[0], r))
  }

  function Message(es: seq<Entry>, w: nat): seq<byte>
    requires EntriesOk(es) && Fits(|es|, w)
  {
    HeadBytes(MAP, |es|, w) + EntriesBytes(es)
  }

  lemma {:induction false} NumsDecode(xs: seq<Num>, rest: seq<byte>)
    requires NumsOk(xs)
    ensures TakeUints(NumsBytes(xs) + rest, |xs|) == Some((Values(xs), rest))
  {
    hide TakeTyped, HeadBytes, Fits;
    if xs == [] {
      assert [] + rest == rest;
    } else {
      assert NumsBytes(xs) + rest == NumBytes(xs[0]) + (NumsBytes(xs[1..]) + rest);
      TypedRoundTrip(UINT, xs[0].n, xs[0].w, NumsBytes(xs[1..]) + rest);
      NumsDecode(xs[1..], rest);
    }
  }

  lemma {:induction false} ExtrasSkip(items: seq<Item>, rest: seq<byte>)
    requires AllWalkable(items)
    ensures SkipMany(Encodings(items) + rest, |items|) == if Skippable(items) then Some(rest) else None
  {
    hide Skip, Encoding, Containers, Walkable;
    if items == [] {
      assert [] + rest == rest;
    } else {
      EncodingsOpen(items, rest);
      SkipsOne(items[0], Encodings(items[1..]) + rest);
      ExtrasSkip(items[1..], rest);
    }
  }

  lemma SkipsOne(i: Item, rest: seq<byte>)
    requires Walkable(i)
    ensures Skip(Encoding(i) + rest) == if Containers(i) <= SKIP_MAX_DEPTH then Some(rest) else None
  {
    hide SkipFrom, Encoding, Containers, Walkable;
    SkipsItem(i, rest, 0, 0);
    SkipNone(rest, Containers(i));
  }

  lemma ArrayDecodes(n: nat, w: nat, rest: seq<byte>)
    requires Fits(n, w) && n <= |rest|
    ensures TakeArray(HeadBytes(ARRAY, n, w) + rest) == Some((n, rest))
  {
    hide TakeTyped, HeadBytes, Fits;
    TypedRoundTrip(ARRAY, n, w, rest);
  }

  lemma ComponentDecodes(c: Component, rest: seq<byte>)
    requires ComponentOk(c)
    ensures TakeCap(ComponentBytes(c) + rest) ==
            if ComponentAccepted(c) then Some((CapOf(Values(c.values)), rest)) else None
  {
    hide TakeArray, HeadBytes, Fits, NumsBytes, NumsOk, AllWalkable, Encodings, Skippable, TakeUints, SkipMany, CapInRange;
    var n := |c.values| + |c.extras|;
    assert ComponentBytes(c) + rest == HeadBytes(ARRAY, n, c.w) + (NumsBytes(c.values) + (Encodings(c.extras) + rest));
    ArrayDecodes(n, c.w, NumsBytes(c.values) + (Encodings(c.extras) + rest));
    NumsDecode(c.values, Encodings(c.extras) + rest);
    ExtrasSkip(c.extras, rest);
  }

  lemma {:induction false} ComponentsDecode(cs: seq<Component>, rest: seq<byte>)
    requires ComponentsOk(cs)
    ensures TakeCaps(ComponentsBytes(cs) + rest, |cs|) == if ComponentsAccepted(cs) then Some((Caps(cs), rest)) else None
  {
    hide TakeCap, ComponentBytes, ComponentOk, ComponentAccepted, CapOf, Values;
    if cs == [] {
      assert [] + rest == rest;
    } else {
      assert ComponentsBytes(cs) + rest == ComponentBytes(cs[0]) + (ComponentsBytes(cs[1..]) + rest);
      ComponentDecodes(cs[0], ComponentsBytes(cs[1..]) + rest);
      ComponentsDecode(cs[1..], rest);
    }
  }

  lemma EntryDecodes(e: Entry, rest: seq<byte>, r: Report)
    requires EntryOk(e)
    ensures TakePair(EntryBytes(e) + rest, r) == if EntryAccepted(e) then Some((Apply(e, r), rest)) else None
  {
    hide TakeTyped, TakeArray, TakeCaps, Skip, HeadBytes, Fits, ComponentsBytes, ComponentsOk, ComponentsAccepted, Encoding, Containers, Walkable, Caps;
    assert EntryBytes(e) + rest == NumBytes(e.key) + (BodyBytes(e) + rest);
    TypedRoundTrip(UINT, e.key.n, e.key.w, BodyBytes(e) + rest);
    match e.body
    case Value(v) => TypedRoundTrip(UINT, v.n, v.w, rest);
    case Parts(comps, w) =>
      assert BodyBytes(e) + rest == HeadBytes(ARRAY, |comps|, w) + (ComponentsBytes(comps) + rest);
      ArrayDecodes(|comps|, w, ComponentsBytes(comps) + rest);
      ComponentsDecode(comps, rest);
    case Other(item) => SkipsOne(item, rest);
  }

  lemma {:induction false} EntriesDecode(es: seq<Entry>, rest: seq<byte>, r: Report)
    requires EntriesOk(es)
    ensures TakePairs(EntriesBytes(es) + rest, |es|, r) == if EntriesAccepted(es) then Some(ApplyAll(es, r)) else None
    decreases |es|
  {
    hide TakePair, EntryBytes, EntryOk, EntryAccepted, Apply;
    if es == [] {
      assert [] + rest == rest;
    } else {
      assert EntriesBytes(es) + rest == EntryBytes(es[0]) + (EntriesBytes(es[1..]) + rest);
      EntryDecodes(es[0], EntriesBytes(es[1..]) + rest, r);
      if EntryAccepted(es[0]) {
        EntriesDecode(es[1..], rest, Apply(es[0], r));
      }
    }
  }

  /**
   * Any message of keys and values, in any order and any head widths, with unknown keys and
   * extra component fields anywhere, decodes exactly when every known value is in range and
   * every unknown one holds at most eight containers; and then to what its known entries say.
   */
  lemma MessageDecodes(es: seq<Entry>, w: nat, rest: seq<byte>)
    requires EntriesOk(es) && Fits(|es|, w)
    ensures Decoded(Message(es, w) + rest) == if EntriesAccepted(es) then Some(ApplyAll(es, Report(0, 0, []))) else None
  {
    hide TakeTyped, HeadBytes, Fits, EntriesOk, EntriesBytes, EntriesAccepted, ApplyAll, TakePairs;
    assert Message(es, w) + rest == HeadBytes(MAP, |es|, w) + (EntriesBytes(es) + rest);
    TypedRoundTrip(MAP, |es|, w, EntriesBytes(es) + rest);
    EntriesDecode(es, rest, Report(0, 0, []));
  }

  // ---- and nothing else decodes ---------------------------------------------------------

  lemma TypedIsWritten(s: seq<byte>, major: nat) returns (w: nat)
    requires TakeTyped(s, major).Some?
    ensures var (n, rest) := TakeTyped(s, major).value; major < 8 && Fits(n, w) && s == HeadBytes(major, n, w) + rest
  {
    hide TakeHead, HeadBytes, Fits;
    w := HeadIsWritten(s);
  }

  lemma NumIsWritten(s: seq<byte>) returns (x: Num)
    requires TakeTyped(s, UINT).Some?
    ensures var (n, rest) := TakeTyped(s, UINT).value; NumOk(x) && x.n == n && s == NumBytes(x) + rest
  {
    hide TakeTyped, HeadBytes, Fits;
    var w := TypedIsWritten(s, UINT);
    x := Num(TakeTyped(s, UINT).value.0, w);
  }

  lemma {:induction false} UintsAreNums(s: seq<byte>, n: nat) returns (xs: seq<Num>)
    requires TakeUints(s, n).Some?
    ensures var (v, rest) := TakeUints(s, n).value; |xs| == n && NumsOk(xs) && Values(xs) == v && s == NumsBytes(xs) + rest
    decreases n
  {
    hide TakeTyped, NumOk, NumBytes;
    if n == 0 {
      xs := [];
      assert [] + s == s;
    } else {
      var x := NumIsWritten(s);
      var more := UintsAreNums(TakeTyped(s, UINT).value.1, n - 1);
      xs := [x] + more;
      assert xs[1..] == more;
    }
  }

  lemma {:induction false} SkippedAreItems(s: seq<byte>, n: nat) returns (items: seq<Item>)
    requires SkipMany(s, n).Some?
    ensures |items| == n && AllWalkable(items) && Skippable(items) && s == Encodings(items) + SkipMany(s, n).value
    decreases n
  {
    hide Skip, Walkable, Encoding, Containers;
    if n == 0 {
      items := [];
      assert [] + s == s;
    } else {
      var rest := Skip(s).value;
      var i := SkippedIsItem(s, rest);
      var more := SkippedAreItems(rest, n - 1);
      items := [i] + more;
      assert items[1..] == more;
    }
  }

  lemma ArrayIsWritten(s: seq<byte>) returns (w: nat)
    requires TakeArray(s).Some?
    ensures var (n, rest) := TakeArray(s).value; Fits(n, w) && s == HeadBytes(ARRAY, n, w) + rest
  {
    hide TakeTyped, HeadBytes, Fits;
    w := TypedIsWritten(s, ARRAY);
  }

  lemma CapIsComponent(s: seq<byte>) returns (c: Component)
    requires TakeCap(s).Some?
    ensures var (v, rest) := TakeCap(s).value;
            ComponentOk(c) && ComponentAccepted(c) && CapOf(Values(c.values)) == v && s == ComponentBytes(c) + rest
  {
    hide TakeArray, HeadBytes, Fits, TakeUints, SkipMany, NumsOk, Values, NumsBytes, AllWalkable, Skippable, Encodings, CapInRange;
    var (fields, fieldsOn) := TakeArray(s).value;
    var extrasOn := TakeUints(fieldsOn, FIELDS).value.1;
    var w := ArrayIsWritten(s);
    var values := UintsAreNums(fieldsOn, FIELDS);
    var extras := SkippedAreItems(extrasOn, fields - FIELDS);
    c := Component(values, extras, w);
  }

  lemma {:induction false} CapsAreComponents(s: seq<byte>, n: nat) returns (cs: seq<Component>)
    requires TakeCaps(s, n).Some?
    ensures var (v, rest) := TakeCaps(s, n).value;
            |cs| == n && ComponentsOk(cs) && ComponentsAccepted(cs) && Caps(cs) == v && s == ComponentsBytes(cs) + rest
    decreases n
  {
    hide TakeCap, ComponentOk, ComponentAccepted, ComponentBytes, CapOf, Values;
    if n == 0 {
      cs := [];
      assert [] + s == s;
    } else {
      var c := CapIsComponent(s);
      var more := CapsAreComponents(TakeCap(s).value.1, n - 1);
      cs := [c] + more;
      assert cs[1..] == more;
    }
  }

  lemma PairIsEntry(s: seq<byte>, r: Report) returns (e: Entry)
    requires TakePair(s, r).Some?
    ensures var (r', rest) := TakePair(s, r).value;
            EntryOk(e) && EntryAccepted(e) && Apply(e, r) == r' && s == EntryBytes(e) + rest
  {
    hide TakeTyped, TakeArray, TakeCaps, Skip, NumOk, NumBytes, HeadBytes, Fits, ComponentsBytes, ComponentsOk, ComponentsAccepted, Encoding, Containers, Walkable, Caps;
    var key := NumIsWritten(s);
    var body := TakeTyped(s, UINT).value.1;
    if key.n == KEY_FW || key.n == KEY_HEAP {
      var v := NumIsWritten(body);
      e := Entry(key, Value(v));
    } else if key.n == KEY_COMPONENTS {
      var (count, entries) := TakeArray(body).value;
      var w := ArrayIsWritten(body);
      var comps := CapsAreComponents(entries, count);
      e := Entry(key, Parts(comps, w));
    } else {
      var item := SkippedIsItem(body, Skip(body).value);
      e := Entry(key, Other(item));
    }
  }

  lemma {:induction false} PairsAreEntries(s: seq<byte>, n: nat, r: Report) returns (es: seq<Entry>, rest: seq<byte>)
    requires TakePairs(s, n, r).Some?
    ensures |es| == n && EntriesOk(es) && EntriesAccepted(es) && s == EntriesBytes(es) + rest
    ensures ApplyAll(es, r) == TakePairs(s, n, r).value
    decreases n
  {
    hide TakePair, EntryOk, EntryAccepted, EntryBytes, Apply;
    if n == 0 {
      es, rest := [], s;
      assert [] + s == s;
    } else {
      var e := PairIsEntry(s, r);
      var (r', others) := TakePair(s, r).value;
      var more;
      more, rest := PairsAreEntries(others, n - 1, r');
      es := [e] + more;
      assert es[1..] == more;
    }
  }

  /** The bytes begin with a message whose every entry is acceptable, and it says `r`. */
  ghost predicate Says(s: seq<byte>, r: Report) {
    exists es, w, rest :: Holds(s, es, w, rest) && ApplyAll(es, Report(0, 0, [])) == r
  }

  predicate Holds(s: seq<byte>, es: seq<Entry>, w: nat, rest: seq<byte>) {
    EntriesOk(es) && EntriesAccepted(es) && Fits(|es|, w) && s == Message(es, w) + rest
  }

  /** Any bytes decode exactly when they begin with such a message, and to what it says. */
  lemma DecodesIff(s: seq<byte>, r: Report)
    ensures Decoded(s) == Some(r) <==> Says(s, r)
  {
    hide Decoded, EntriesOk, EntriesAccepted, Fits, Message, ApplyAll;
    if Decoded(s) == Some(r) {
      var es, w, rest := DecodedIsMessage(s);
      MessageDecodes(es, w, rest);
    }
    if es, w, rest :| Holds(s, es, w, rest) && ApplyAll(es, Report(0, 0, [])) == r {
      MessageDecodes(es, w, rest);
    }
  }

  lemma DecodedIsMessage(s: seq<byte>) returns (es: seq<Entry>, w: nat, rest: seq<byte>)
    requires Decoded(s).Some?
    ensures Holds(s, es, w, rest)
  {
    hide TakeTyped, HeadBytes, Fits, TakePairs, EntriesOk, EntriesAccepted, EntriesBytes;
    var (n, entries) := TakeMap(s).value;
    w := TypedIsWritten(s, MAP);
    es, rest := PairsAreEntries(entries, n, Report(0, 0, []));
    assert s == HeadBytes(MAP, n, w) + EntriesBytes(es) + rest;
  }

  // ---- forward compatibility and the round trip -------------------------------------------

  datatype Fact = FwIs(n: nat) | HeapIs(n: nat) | CapsAre(caps: seq<Capability>)

  /** What this build understands of a message. */
  function Facts(es: seq<Entry>): seq<Fact>
    requires EntriesOk(es) && EntriesAccepted(es)
  {
    if es == [] then [] else
      var e := es[0];
      (if e.key.n == KEY_FW then [FwIs(e.body.v.n)]
       else if e.key.n == KEY_HEAP then [HeapIs(e.body.v.n)]
       else if e.key.n == KEY_COMPONENTS then [CapsAre(Caps(e.body.comps))]
       else []) + Facts(es[1..])
  }

  function Learn(fs: seq<Fact>, r: Report): Report {
    if fs == [] then r else
      Learn(fs[1..], match fs[0] case FwIs(n) => r.(fwVersion := n) case HeapIs(n) => r.(freeHeapKb := n) case CapsAre(cs) => r.(caps := cs))
  }

  lemma {:induction false} OnlyFactsMatter(es: seq<Entry>, r: Report)
    requires EntriesOk(es) && EntriesAccepted(es)
    ensures ApplyAll(es, r) == Learn(Facts(es), r)
    decreases |es|
  {
    hide EntryOk, EntryAccepted, Caps;
    if es != [] {
      OnlyFactsMatter(es[1..], Apply(es[0], r));
      assert Facts(es) == Facts(es)[..|Facts(es)| - |Facts(es[1..])|] + Facts(es[1..]);
      if es[0].key.n in {KEY_FW, KEY_HEAP, KEY_COMPONENTS} {
        assert Facts(es)[1..] == Facts(es[1..]);
      } else {
        assert Facts(es) == Facts(es[1..]);
      }
    }
  }

  /** A newer node's report reads the same whatever keys and fields it has added. */
  lemma ForwardCompatible(es: seq<Entry>, w: nat, rest: seq<byte>, r: Report)
    requires EntriesOk(es) && Fits(|es|, w) && EntriesAccepted(es)
    requires Facts(es) == [FwIs(r.fwVersion), HeapIs(r.freeHeapKb), CapsAre(r.caps)]
    ensures Decoded(Message(es, w) + rest) == Some(r)
  {
    hide Fits, EntriesOk, EntriesAccepted, ApplyAll, Facts, Decoded, Message;
    MessageDecodes(es, w, rest);
    OnlyFactsMatter(es, Report(0, 0, []));
    LearnThree(r);
  }

  lemma LearnThree(r: Report)
    ensures Learn([FwIs(r.fwVersion), HeapIs(r.freeHeapKb), CapsAre(r.caps)], Report(0, 0, [])) == r
  {
    var fs := [FwIs(r.fwVersion), HeapIs(r.freeHeapKb), CapsAre(r.caps)];
    var two, one := fs[1..], fs[2..];
    assert two[1..] == one && one[1..] == [];
    var r2 := Report(r.fwVersion, r.freeHeapKb, []);
    assert Learn(one, r2) == Learn([], r);
    assert Learn(two, Report(r.fwVersion, 0, [])) == Learn(one, r2);
  }

  function Short(n: nat): Num
    requires n < TWO64
  {
    Num(n, Shortest(n))
  }

  function Standard(c: Capability): Component
    requires CapInRange(c)
  {
    Component([Short(c.typeId), Short(c.busAddr), Short(c.busType), Short(c.channels), Short(c.flags)], [], Shortest(FIELDS))
  }

  function AllStandard(caps: seq<Capability>): (cs: seq<Component>)
    requires AllInRange(caps)
    ensures |cs| == |caps|
  {
    if caps == [] then [] else [Standard(caps[0])] + AllStandard(caps[1..])
  }

  lemma StandardIs(c: Capability)
    requires CapInRange(c)
    ensures ComponentOk(Standard(c)) && ComponentAccepted(Standard(c))
    ensures ComponentBytes(Standard(c)) == CapBytes(c) && CapOf(Values(Standard(c).values)) == c
  {
    hide HeadBytes, Fits, Shortest, CapInRange;
    var xs := Standard(c).values;
    FiveNums(xs[0], xs[1], xs[2], xs[3], xs[4]);
    assert ComponentBytes(Standard(c)) == Canonical(ARRAY, FIELDS) + NumsBytes(xs) + [];
  }

  lemma FiveNums(a: Num, b: Num, c: Num, d: Num, e: Num)
    requires NumOk(a) && NumOk(b) && NumOk(c) && NumOk(d) && NumOk(e)
    ensures NumsOk([a, b, c, d, e]) && Values([a, b, c, d, e]) == [a.n, b.n, c.n, d.n, e.n]
    ensures NumsBytes([a, b, c, d, e]) == NumBytes(a) + NumBytes(b) + NumBytes(c) + NumBytes(d) + NumBytes(e)
  {
    hide NumOk, NumBytes;
    var x5, x4, x3, x2, x1 := [a, b, c, d, e], [b, c, d, e], [c, d, e], [d, e], [e];
    assert x5[1..] == x4 && x4[1..] == x3 && x3[1..] == x2 && x2[1..] == x1 && x1[1..] == [];
    assert NumsOk(x1) && Values(x1) == [e.n] && NumsBytes(x1) == NumBytes(e);
    assert NumsOk(x2) && Values(x2) == [d.n, e.n] && NumsBytes(x2) == NumBytes(d) + NumBytes(e);
    assert NumsOk(x3) && Values(x3) == [c.n, d.n, e.n] && NumsBytes(x3) == NumBytes(c) + NumBytes(d) + NumBytes(e);
    assert NumsOk(x4) && Values(x4) == [b.n, c.n, d.n, e.n] && NumsBytes(x4) == NumBytes(b) + NumBytes(c) + NumBytes(d) + NumBytes(e);
  }

  lemma {:induction false} AllStandardIs(caps: seq<Capability>)
    requires AllInRange(caps)
    ensures ComponentsOk(AllStandard(caps)) && ComponentsAccepted(AllStandard(caps))
    ensures Caps(AllStandard(caps)) == caps && ComponentsBytes(AllStandard(caps)) == CapsBytes(caps)
  {
    hide *;
    if caps == [] {
      NoneStandard();
    } else {
      PartsInRange(caps);
      StandardIs(caps[0]);
      AllStandardIs(caps[1..]);
      CapsBytesFront(caps);
      AllStandardFront(caps);
      ComponentsFront(AllStandard(caps));
      assert caps == [caps[0]] + caps[1..];
    }
  }

  lemma NoneStandard()
    ensures AllInRange([]) && ComponentsOk(AllStandard([])) && ComponentsAccepted(AllStandard([]))
    ensures Caps(AllStandard([])) == [] && ComponentsBytes(AllStandard([])) == CapsBytes([])
  {
  }

  lemma AllStandardFront(caps: seq<Capability>)
    requires caps != [] && AllInRange(caps)
    ensures AllStandard(caps)[0] == Standard(caps[0]) && AllStandard(caps)[1..] == AllStandard(caps[1..])
  {
    hide Standard;
  }

  lemma ComponentsFront(cs: seq<Component>)
    requires cs != []
    ensures ComponentsOk(cs) <==> ComponentOk(cs[0]) && ComponentsOk(cs[1..])
    ensures ComponentsAccepted(cs) <==> ComponentAccepted(cs[0]) && ComponentsAccepted(cs[1..])
    ensures ComponentsOk(cs) ==> ComponentsBytes(cs) == ComponentBytes(cs[0]) + ComponentsBytes(cs[1..])
    ensures ComponentsAccepted(cs) ==> Caps(cs) == [CapOf(Values(cs[0].values))] + Caps(cs[1..])
  {
    hide ComponentOk, ComponentAccepted, ComponentBytes, CapOf, Values;
  }

  lemma {:induction false} CapsBytesFront(caps: seq<Capability>)
    requires caps != [] && AllInRange(caps)
    ensures CapsBytes(caps) == CapBytes(caps[0]) + CapsBytes(caps[1..])
  {
    hide CapBytes, AllInRange, CapsBytes;
    var n := |caps| - 1;
    PartsInRange(caps);
    CapsBytesLast(caps);
    if n == 0 {
      assert caps[..0] == [] && caps[1..] == [];
      NoCapsBytes();
    } else {
      CapsBytesFront(caps[..n]);
      PartsInRange(caps[1..]);
      CapsBytesLast(caps[1..]);
      assert caps[..n][1..] == caps[1..][..n - 1];
    }
  }

  lemma CapsBytesLast(caps: seq<Capability>)
    requires caps != [] && AllInRange(caps)
    ensures AllInRange(caps[..|caps| - 1]) && CapInRange(caps[|caps| - 1])
    ensures CapsBytes(caps) == CapsBytes(caps[..|caps| - 1]) + CapBytes(caps[|caps| - 1])
  {
    hide CapBytes;
  }

  lemma NoCapsBytes()
    ensures AllInRange([]) && CapsBytes([]) == []
  {
  }

  /** What was encoded is what is decoded. */
  lemma RoundTrip(r: Report, rest: seq<byte>)
    requires ReportInRange(r) && |r.caps| <= CAP_MAX
    ensures Decoded(ReportBytes(r) + rest) == Some(r)
  {
    hide Fits, Shortest, CapsBytes, ComponentsBytes, ComponentsOk, ComponentsAccepted, Caps, AllStandard, Decoded;
    hide EntriesOk, EntriesBytes, EntriesAccepted, Facts, HeadBytes;
    var fw, heap, parts := StandardEntries(r);
    var es := [fw, heap, parts];
    ThreeEntries(fw, heap, parts);
    assert Message(es, Shortest(3)) == Canonical(MAP, 3) + (EntryBytes(fw) + EntryBytes(heap) + EntryBytes(parts));
    assert Message(es, Shortest(3)) == ReportBytes(r);
    ForwardCompatible(es, Shortest(3), rest, r);
  }

  /** The encoder's three entries. */
  lemma StandardEntries(r: Report) returns (fw: Entry, heap: Entry, parts: Entry)
    requires ReportInRange(r) && |r.caps| <= CAP_MAX
    ensures EntryOk(fw) && EntryAccepted(fw) && fw.key.n == KEY_FW && fw.body.v.n == r.fwVersion
    ensures EntryOk(heap) && EntryAccepted(heap) && heap.key.n == KEY_HEAP && heap.body.v.n == r.freeHeapKb
    ensures EntryOk(parts) && EntryAccepted(parts) && parts.key.n == KEY_COMPONENTS && Caps(parts.body.comps) == r.caps
    ensures EntryBytes(fw) == Uint(KEY_FW) + Uint(r.fwVersion)
    ensures EntryBytes(heap) == Uint(KEY_HEAP) + Uint(r.freeHeapKb)
    ensures EntryBytes(parts) == Uint(KEY_COMPONENTS) + (Canonical(ARRAY, |r.caps|) + CapsBytes(r.caps))
  {
    hide HeadBytes, Fits, Shortest, CapsBytes, ComponentsBytes, ComponentsOk, ComponentsAccepted, Caps, AllStandard;
    AllStandardIs(r.caps);
    fw := Entry(Short(KEY_FW), Value(Short(r.fwVersion)));
    heap := Entry(Short(KEY_HEAP), Value(Short(r.freeHeapKb)));
    parts := Entry(Short(KEY_COMPONENTS), Parts(AllStandard(r.caps), Shortest(|r.caps|)));
  }

  lemma ThreeEntries(a: Entry, b: Entry, c: Entry)
    requires EntryOk(a) && EntryOk(b) && EntryOk(c) && EntryAccepted(a) && EntryAccepted(b) && EntryAccepted(c)
    requires a.key.n == KEY_FW && b.key.n == KEY_HEAP && c.key.n == KEY_COMPONENTS
    ensures EntriesOk([a, b, c]) && EntriesAccepted([a, b, c])
    ensures EntriesBytes([a, b, c]) == EntryBytes(a) + EntryBytes(b) + EntryBytes(c)
    ensures Facts([a, b, c]) == [FwIs(a.body.v.n), HeapIs(b.body.v.n), CapsAre(Caps(c.body.comps))]
  {
    hide NumOk, Walkable, Containers, ComponentsOk, ComponentsAccepted, EntryBytes, Caps;
    var e3, e2, e1 := [a, b, c], [b, c], [c];
    assert e3[1..] == e2 && e2[1..] == e1 && e1[1..] == [];
    assert EntriesOk(e1) && EntriesAccepted(e1) && EntriesBytes(e1) == EntryBytes(c) && Facts(e1) == [CapsAre(Caps(c.body.comps))];
    assert EntriesOk(e2) && EntriesAccepted(e2) && EntriesBytes(e2) == EntryBytes(b) + EntryBytes(c);
    assert Facts(e2) == [HeapIs(b.body.v.n), CapsAre(Caps(c.body.comps))];
  }

  // ---- the bytes themselves -------------------------------------------------------------------

  /** Keys 1, 2 and 3 in that order, and each component's five fields in the order of its declaration. */
  lemma ReportExample()
    ensures ReportBytes(Report(10, 11, [Capability(12, 13, 14, 15, 16)])) ==
            [0xA3, 0x01, 0x0A, 0x02, 0x0B, 0x03, 0x81, 0x85, 0x0C, 0x0D, 0x0E, 0x0F, 0x10]
  {
    hide Canonical, CapBytes, CapsBytes;
    var c := Capability(12, 13, 14, 15, 16);
    SmallHeads();
    ComponentExample();
    CapsBytesLast([c]);
    assert [c][..0] == [];
    NoCapsBytes();
  }

  lemma ComponentExample()
    ensures CapBytes(Capability(12, 13, 14, 15, 16)) == [0x85, 0x0C, 0x0D, 0x0E, 0x0F, 0x10]
  {
    hide Canonical;
    SmallHeads();
  }

  lemma SmallHeads()
    ensures Canonical(UINT, 1) == [0x01] && Canonical(UINT, 2) == [0x02] && Canonical(UINT, 3) == [0x03]
    ensures Canonical(UINT, 10) == [0x0A] && Canonical(UINT, 11) == [0x0B] && Canonical(UINT, 12) == [0x0C]
    ensures Canonical(UINT, 13) == [0x0D] && Canonical(UINT, 14) == [0x0E] && Canonical(UINT, 15) == [0x0F] && Canonical(UINT, 16) == [0x10]
    ensures Canonical(MAP, 3) == [0xA3] && Canonical(ARRAY, 1) == [0x81] && Canonical(ARRAY, 5) == [0x85]
  {
  }
}
