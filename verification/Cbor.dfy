/**
 * The CBOR subset the protocol uses (RFC 8949 sections 3 and 4.2.1): unsigned and negative
 * integers, byte strings, arrays and maps, all of definite length. Reading functions work on
 * what is left of the input and return what is left after them.
 */
module Cbor {
  import opened Bytes

  const UINT := 0
  const NINT := 1
  const BLOB := 2
  const ARRAY := 4
  const MAP := 5
  const SKIP_MAX_DEPTH := 8
  const TWO64 := 0x1_0000_0000_0000_0000
  const TWO63 := 0x8000_0000_0000_0000
  const MAX_LEN := 0xFFFF

  // ---- heads --------------------------------------------------------------------------

  datatype Head = Head(major: nat, argument: nat)

  function Pow256(w: nat): nat {
    if w == 0 then 1 else 256 * Pow256(w - 1)
  }

  /** A number in `w` big-endian bytes. */
  function BigEndian(n: nat, w: nat): (s: seq<byte>)
    ensures |s| == w
  {
    if w == 0 then [] else BigEndian(n / 256, w - 1) + [U8(n % 256)]
  }

  function FromBigEndian(s: seq<byte>): nat {
    if s == [] then 0 else FromBigEndian(s[..|s| - 1]) * 256 + Val(s[|s| - 1])
  }

  lemma {:induction false} BigEndianRoundTrip(n: nat, w: nat)
    requires n < Pow256(w)
    ensures FromBigEndian(BigEndian(n, w)) == n
  {
    if w > 0 {
      BigEndianRoundTrip(n / 256, w - 1);
      assert BigEndian(n, w)[..w - 1] == BigEndian(n / 256, w - 1);
    }
  }

  lemma {:induction false} FromBigEndianFits(s: seq<byte>)
    ensures FromBigEndian(s) < Pow256(|s|)
  {
    if s != [] {
      FromBigEndianFits(s[..|s| - 1]);
    }
  }

  lemma {:induction false} FromBigEndianRoundTrip(s: seq<byte>)
    ensures BigEndian(FromBigEndian(s), |s|) == s
  {
    hide U8, Val;
    if s != [] {
      var n := |s| - 1;
      FromBigEndianRoundTrip(s[..n]);
      assert s == s[..n] + [s[n]];
      ByteBack(s[n]);
      Digits(FromBigEndian(s[..n]), Val(s[n]));
    }
  }

  lemma Digits(q: nat, r: nat)
    requires r < 256
    ensures (q * 256 + r) / 256 == q && (q * 256 + r) % 256 == r
  {
  }

  lemma ByteBack(b: byte)
    ensures U8(Val(b)) == b
  {
  }

  /** The widths an argument can follow in: none, or 1, 2, 4 or 8 bytes. */
  predicate IsWidth(w: nat) {
    w == 0 || w == 1 || w == 2 || w == 4 || w == 8
  }

  predicate Fits(argument: nat, w: nat) {
    IsWidth(w) && argument < if w == 0 then 24 else Pow256(w)
  }

  /** The five low bits of an initial byte. */
  function Info(argument: nat, w: nat): (i: nat)
    requires Fits(argument, w)
    ensures i < 28
  {
    if w == 0 then argument else if w == 1 then 24 else if w == 2 then 25 else if w == 4 then 26 else 27
  }

  /** The bytes of a head whose argument takes `w` bytes of its own. */
  function HeadBytes(major: nat, argument: nat, w: nat): (s: seq<byte>)
    requires major < 8 && Fits(argument, w)
    ensures |s| == 1 + w
  {
    [U8(32 * major + Info(argument, w))] + BigEndian(argument, w)
  }

  /** The shortest width for an argument. */
  function Shortest(argument: nat): (w: nat)
    requires argument < TWO64
    ensures Fits(argument, w)
    ensures forall v :: Fits(argument, v) ==> w <= v
  {
    WidthLimits();
    if argument < 24 then 0 else if argument < 0x100 then 1 else if argument < 0x1_0000 then 2
    else if argument < 0x1_0000_0000 then 4 else 8
  }

  lemma WidthLimits()
    ensures Pow256(1) == 0x100 && Pow256(2) == 0x1_0000 && Pow256(4) == 0x1_0000_0000 && Pow256(8) == TWO64
  {
    assert Pow256(2) == 0x1_0000 && Pow256(3) == 0x100_0000 && Pow256(4) == 0x1_0000_0000;
    assert Pow256(6) == 0x1_0000_0000 * 0x1_0000;
  }

  /** The canonical head: the only form the writer emits. */
  function Canonical(major: nat, argument: nat): seq<byte>
    requires major < 8 && argument < TWO64
  {
    HeadBytes(major, argument, Shortest(argument))
  }

  function WidthOf(info: nat): Option<nat> {
    if info < 24 then Some(0) else if info == 24 then Some(1) else if info == 25 then Some(2)
    else if info == 26 then Some(4) else if info == 27 then Some(8) else None
  }

  /** A head and what is left after it; reserved forms and indefinite lengths are refused. */
  function TakeHead(s: seq<byte>): (r: Option<(Head, seq<byte>)>)
    ensures r.Some? ==> |r.value.1| < |s| && r.value.1 == s[|s| - |r.value.1|..]
  {
    if s == [] then None else
      var major, info := Val(s[0]) / 32, Val(s[0]) % 32;
      match WidthOf(info)
      case None => None
      case Some(w) =>
        if w == 0 then Some((Head(major, info), s[1..]))
        else if 1 + w > |s| then None
        else Some((Head(major, FromBigEndian(s[1..1 + w])), s[1 + w..]))
  }

  /** Any head that was written, in whatever width, is read back. */
  lemma HeadRoundTrip(major: nat, argument: nat, w: nat, rest: seq<byte>)
    requires major < 8 && Fits(argument, w)
    ensures TakeHead(HeadBytes(major, argument, w) + rest) == Some((Head(major, argument), rest))
  {
    var s := HeadBytes(major, argument, w) + rest;
    assert s[0] == U8(32 * major + Info(argument, w));
    assert (32 * major + Info(argument, w)) / 32 == major && (32 * major + Info(argument, w)) % 32 == Info(argument, w);
    assert s[1 + w..] == rest;
    if w > 0 {
      assert s[1..1 + w] == BigEndian(argument, w);
      BigEndianRoundTrip(argument, w);
    }
  }

  /** And only written heads are read: what was consumed is the head in the width it came in. */
  lemma HeadIsWritten(s: seq<byte>) returns (w: nat)
    requires TakeHead(s).Some?
    ensures var (h, rest) := TakeHead(s).value;
            h.major < 8 && h.argument < TWO64 && Fits(h.argument, w) && s == HeadBytes(h.major, h.argument, w) + rest
  {
    hide U8, Val, Pow256, BigEndian, FromBigEndian;
    WidthLimits();
    var info := Val(s[0]) % 32;
    w := WidthOf(info).value;
    ByteBack(s[0]);
    assert 32 * (Val(s[0]) / 32) + info == Val(s[0]);
    assert s == [s[0]] + s[1..1 + w] + s[1 + w..];
    FromBigEndianFits(s[1..1 + w]);
    FromBigEndianRoundTrip(s[1..1 + w]);
  }

  // ---- items --------------------------------------------------------------------------

  /**
   * An item in any head widths. A container carries the count its head declares beside what it
   * holds; a map holds its keys and values in one sequence.
   */
  datatype Item =
    | Number(negative: bool, argument: nat, w: nat)
    | Blob(bytes: seq<byte>, w: nat)
    | Array(items: seq<Item>, w: nat)
    | Map(declared: nat, items: seq<Item>, w: nat)

  /** Each head fits its width. */
  predicate Fitting(i: Item)
    decreases i, 0
  {
    match i
    case Number(_, argument, w) => Fits(argument, w)
    case Blob(bytes, w) => Fits(|bytes|, w)
    case Array(items, w) => Fits(|items|, w) && AllFitting(items)
    case Map(declared, items, w) => Fits(declared, w) && AllFitting(items)
  }

  predicate AllFitting(items: seq<Item>)
    decreases items, |items|
  {
    items == [] || (Fitting(items[0]) && AllFitting(items[1..]))
  }

  /** An item as RFC 8949 has it: a map holds twice what it declares. */
  predicate WellFormed(i: Item): (b: bool)
    ensures b ==> Fitting(i)
    decreases i, 0
  {
    match i
    case Number(_, _, _) => Fitting(i)
    case Blob(_, _) => Fitting(i)
    case Array(items, w) => Fits(|items|, w) && AllWellFormed(items)
    case Map(declared, items, w) => Fits(declared, w) && |items| == 2 * declared && AllWellFormed(items)
  }

  predicate AllWellFormed(items: seq<Item>): (b: bool)
    ensures b ==> AllFitting(items)
    decreases items, |items|
  {
    items == [] || (WellFormed(items[0]) && AllWellFormed(items[1..]))
  }

  /** An item as the skipper walks it: a map holds twice what it declares, in 64-bit arithmetic. */
  predicate Walkable(i: Item): (b: bool)
    ensures b ==> Fitting(i)
    decreases i, 0
  {
    match i
    case Number(_, _, _) => Fitting(i)
    case Blob(_, _) => Fitting(i)
    case Array(items, w) => Fits(|items|, w) && AllWalkable(items)
    case Map(declared, items, w) => Fits(declared, w) && |items| == 2 * declared % TWO64 && AllWalkable(items)
  }

  predicate AllWalkable(items: seq<Item>): (b: bool)
    ensures b ==> AllFitting(items)
    decreases items, |items|
  {
    items == [] || (Walkable(items[0]) && AllWalkable(items[1..]))
  }

  function Encoding(i: Item): (s: seq<byte>)
    requires Fitting(i)
    ensures |s| > 0
    decreases i, 0
  {
    match i
    case Number(negative, argument, w) => HeadBytes(if negative then NINT else UINT, argument, w)
    case Blob(bytes, w) => HeadBytes(BLOB, |bytes|, w) + bytes
    case Array(items, w) => HeadBytes(ARRAY, |items|, w) + Encodings(items)
    case Map(declared, items, w) => HeadBytes(MAP, declared, w) + Encodings(items)
  }

  function Encodings(items: seq<Item>): (s: seq<byte>)
    requires AllFitting(items)
    ensures |s| >= |items|
    decreases items, |items|
  {
    if items == [] then [] else Encoding(items[0]) + Encodings(items[1..])
  }

  /** Arrays and maps in an item, at any level. */
  function Containers(i: Item): nat
    decreases i, 0
  {
    match i
    case Number(_, _, _) => 0
    case Blob(_, _) => 0
    case Array(items, _) => 1 + AllContainers(items)
    case Map(_, items, _) => 1 + AllContainers(items)
  }

  function AllContainers(items: seq<Item>): nat
    decreases items, |items|
  {
    if items == [] then 0 else Containers(items[0]) + AllContainers(items[1..])
  }

  // ---- the skipper --------------------------------------------------------------------

  /** How many items a container's head says follow: a map's count doubles, in 64-bit arithmetic. */
  function Held(h: Head): nat {
    if h.major == MAP then 2 * h.argument % TWO64 else h.argument
  }

  /** Steps over `pending` items, having met `depth` containers: what is left, if all goes well. */
  function SkipFrom(s: seq<byte>, pending: nat, depth: nat): (r: Option<seq<byte>>)
    ensures r.Some? ==> |r.value| <= |s|
    decreases |s|
  {
    if pending == 0 then Some(s) else
      match TakeHead(s)
      case None => None
      case Some((h, rest)) =>
        if h.major == UINT || h.major == NINT then SkipFrom(rest, pending - 1, depth)
        else if h.major == BLOB then
          if h.argument > |rest| then None else SkipFrom(rest[h.argument..], pending - 1, depth)
        else if h.major == ARRAY || h.major == MAP then
          var items := Held(h);
          if depth + 1 > SKIP_MAX_DEPTH || items > |rest| then None
          else SkipFrom(rest, pending - 1 + items, depth + 1)
        else None
  }

  function Skip(s: seq<byte>): Option<seq<byte>> {
    SkipFrom(s, 1, 0)
  }

  lemma SkipUnfolds(s: seq<byte>, pending: nat, depth: nat)
    requires TakeHead(s).Some?
    ensures var (h, rest) := TakeHead(s).value;
            var items := Held(h);
            SkipFrom(s, pending + 1, depth) ==
            if h.major == UINT || h.major == NINT then SkipFrom(rest, pending, depth)
            else if h.major == BLOB then if h.argument > |rest| then None else SkipFrom(rest[h.argument..], pending, depth)
            else if h.major == ARRAY || h.major == MAP then
              if depth + 1 > SKIP_MAX_DEPTH || items > |rest| then None else SkipFrom(rest, pending + items, depth + 1)
            else None
  {
    hide TakeHead;
  }

  lemma SkipNeedsHead(s: seq<byte>, pending: nat, depth: nat)
    requires SkipFrom(s, pending + 1, depth).Some?
    ensures TakeHead(s).Some?
  {
    hide TakeHead;
  }

  /** The skip goes on behind `met` containers more, unless they were too many. */
  function After(rest: seq<byte>, pending: nat, depth: nat, met: nat): Option<seq<byte>> {
    if met == 0 || depth + met <= SKIP_MAX_DEPTH then SkipFrom(rest, pending, depth + met) else None
  }

  /** Stepping over an item is stepping over its bytes, and nothing else, while the containers last. */
  lemma {:induction false} SkipsItem(i: Item, rest: seq<byte>, pending: nat, depth: nat)
    requires Walkable(i)
    ensures SkipFrom(Encoding(i) + rest, pending + 1, depth) == After(rest, pending, depth, Containers(i))
    decreases i, 0
  {
    hide *;
    match i
    case Number(_, _, _) => SkipsNumber(i, rest, pending, depth);
    case Blob(_, _) => SkipsBlob(i, rest, pending, depth);
    case Array(items, _) =>
      ItemsWalkable(i);
      SkipsItems(items, rest, pending, depth + 1);
      SkipsArray(i, rest, pending, depth);
    case Map(_, items, _) =>
      ItemsWalkable(i);
      SkipsItems(items, rest, pending, depth + 1);
      SkipsMap(i, rest, pending, depth);
  }

  lemma ItemsWalkable(i: Item)
    requires Walkable(i)
    ensures (i.Array? || i.Map?) ==> AllWalkable(i.items)
  {
    hide AllWalkable, Fits;
  }

  lemma SkipsNumber(i: Item, rest: seq<byte>, pending: nat, depth: nat)
    requires Walkable(i) && i.Number?
    ensures SkipFrom(Encoding(i) + rest, pending + 1, depth) == After(rest, pending, depth, Containers(i))
  {
    hide HeadBytes, TakeHead, SkipFrom, Fits, Held;
    SkipsOver(if i.negative then NINT else UINT, i.argument, i.w, rest, pending, depth);
  }

  lemma SkipsBlob(i: Item, rest: seq<byte>, pending: nat, depth: nat)
    requires Walkable(i) && i.Blob?
    ensures SkipFrom(Encoding(i) + rest, pending + 1, depth) == After(rest, pending, depth, Containers(i))
  {
    hide HeadBytes, TakeHead, SkipFrom, Fits, Held;
    SkipsOver(BLOB, |i.bytes|, i.w, i.bytes + rest, pending, depth);
    assert Encoding(i) + rest == HeadBytes(BLOB, |i.bytes|, i.w) + (i.bytes + rest);
    assert (i.bytes + rest)[|i.bytes|..] == rest;
  }

  lemma SkipsArray(i: Item, rest: seq<byte>, pending: nat, depth: nat)
    requires Walkable(i) && i.Array?
    requires SkipFrom(Encodings(i.items) + rest, pending + |i.items|, depth + 1) == After(rest, pending, depth + 1, AllContainers(i.items))
    ensures SkipFrom(Encoding(i) + rest, pending + 1, depth) == After(rest, pending, depth, Containers(i))
  {
    hide HeadBytes, TakeHead, SkipFrom, Fits, Held, Encodings, AllContainers, AllWalkable;
    SkipsOver(ARRAY, |i.items|, i.w, Encodings(i.items) + rest, pending, depth);
    assert Encoding(i) + rest == HeadBytes(ARRAY, |i.items|, i.w) + (Encodings(i.items) + rest);
    HeldIs(ARRAY, |i.items|);
  }

  lemma SkipsMap(i: Item, rest: seq<byte>, pending: nat, depth: nat)
    requires Walkable(i) && i.Map?
    requires SkipFrom(Encodings(i.items) + rest, pending + |i.items|, depth + 1) == After(rest, pending, depth + 1, AllContainers(i.items))
    ensures SkipFrom(Encoding(i) + rest, pending + 1, depth) == After(rest, pending, depth, Containers(i))
  {
    hide HeadBytes, TakeHead, SkipFrom, Fits, Held, Encodings, AllContainers, AllWalkable;
    SkipsOver(MAP, i.declared, i.w, Encodings(i.items) + rest, pending, depth);
    assert Encoding(i) + rest == HeadBytes(MAP, i.declared, i.w) + (Encodings(i.items) + rest);
    HeldIs(MAP, i.declared);
  }

  lemma SkipsOver(major: nat, argument: nat, w: nat, rest: seq<byte>, pending: nat, depth: nat)
    requires major in {UINT, NINT, BLOB, ARRAY, MAP} && Fits(argument, w)
    ensures SkipFrom(HeadBytes(major, argument, w) + rest, pending + 1, depth) ==
            if major == UINT || major == NINT then SkipFrom(rest, pending, depth)
            else if major == BLOB then if argument > |rest| then None else SkipFrom(rest[argument..], pending, depth)
            else if depth + 1 > SKIP_MAX_DEPTH || Held(Head(major, argument)) > |rest| then None
            else SkipFrom(rest, pending + Held(Head(major, argument)), depth + 1)
  {
    hide HeadBytes, TakeHead, SkipFrom, Fits, Held;
    HeadRoundTrip(major, argument, w, rest);
    SkipUnfolds(HeadBytes(major, argument, w) + rest, pending, depth);
  }

  lemma HeldIs(major: nat, argument: nat)
    ensures Held(Head(major, argument)) == if major == MAP then 2 * argument % TWO64 else argument
  {
  }

  lemma {:induction false} SkipsItems(items: seq<Item>, rest: seq<byte>, pending: nat, depth: nat)
    requires AllWalkable(items)
    ensures SkipFrom(Encodings(items) + rest, pending + |items|, depth) == After(rest, pending, depth, AllContainers(items))
    decreases items, |items|
  {
    hide *;
    if items == [] {
      EncodingsNone(rest, pending, depth);
    } else {
      EncodingsOpen(items, rest);
      SkipsItem(items[0], Encodings(items[1..]) + rest, pending + |items| - 1, depth);
      SkipsItems(items[1..], rest, pending, depth + Containers(items[0]));
      AfterBoth(Encodings(items[1..]) + rest, pending + |items| - 1, rest, pending, depth, Containers(items[0]), AllContainers(items[1..]));
    }
  }

  lemma EncodingsNone(rest: seq<byte>, pending: nat, depth: nat)
    ensures AllWalkable([]) && Encodings([]) + rest == rest
    ensures SkipFrom(rest, pending, depth) == After(rest, pending, depth, AllContainers([]))
  {
    hide SkipFrom;
  }

  lemma EncodingsOpen(items: seq<Item>, rest: seq<byte>)
    requires items != [] && AllWalkable(items)
    ensures Walkable(items[0]) && AllWalkable(items[1..])
    ensures Encodings(items) + rest == Encoding(items[0]) + (Encodings(items[1..]) + rest)
    ensures AllContainers(items) == Containers(items[0]) + AllContainers(items[1..])
  {
    hide Encoding, Containers, Walkable;
  }

  lemma AfterBoth(s: seq<byte>, p: nat, rest: seq<byte>, pending: nat, depth: nat, c: nat, d: nat)
    requires SkipFrom(s, p, depth + c) == After(rest, pending, depth + c, d)
    ensures After(s, p, depth, c) == After(rest, pending, depth, c + d)
  {
    hide SkipFrom;
  }

  /** A run of items whose bytes start `s`, leaving `end`, with few enough containers for `depth`. */
  ghost predicate Covers(items: seq<Item>, s: seq<byte>, end: seq<byte>, depth: nat) {
    && AllWalkable(items)
    && s == Encodings(items) + end
    && (AllContainers(items) == 0 || depth + AllContainers(items) <= SKIP_MAX_DEPTH)
  }

  /** Whatever is skipped is a run of items with few enough containers. */
  lemma {:induction false} SkippedIsItems(s: seq<byte>, pending: nat, depth: nat) returns (items: seq<Item>)
    requires SkipFrom(s, pending, depth).Some?
    ensures |items| == pending && Covers(items, s, SkipFrom(s, pending, depth).value, depth)
    decreases |s|
  {
    hide *;
    if pending == 0 {
      SkipNone(s, depth);
      items := [];
      CoversNothing(s, depth);
    } else {
      SkipNeedsHead(s, pending - 1, depth);
      var (h, rest) := TakeHead(s).value;
      if h.major == ARRAY || h.major == MAP {
        SkipsContainer(s, pending - 1, depth);
        var inner := SkippedIsItems(rest, pending - 1 + Held(h), depth + 1);
        items := CoversContainer(s, inner, Held(h), SkipFrom(s, pending, depth).value, depth);
      } else {
        SkipsScalar(s, pending - 1, depth);
        var first, after := ScalarIs(s);
        var others := SkippedIsItems(after, pending - 1, depth);
        items := CoversScalar(s, first, others, after, SkipFrom(s, pending, depth).value, depth);
      }
    }
  }

  /** What is left after a skip is the end of what there was. */
  lemma SkipLeavesEnd(s: seq<byte>, pending: nat, depth: nat)
    ensures var r := SkipFrom(s, pending, depth); r.Some? ==> r.value == s[|s| - |r.value|..]
  {
    hide SkipFrom, Encodings, AllContainers, AllWalkable;
    if SkipFrom(s, pending, depth).Some? {
      var items := SkippedIsItems(s, pending, depth);
    }
  }

  lemma SkipsContainer(s: seq<byte>, pending: nat, depth: nat)
    requires SkipFrom(s, pending + 1, depth).Some? && TakeHead(s).Some?
    requires TakeHead(s).value.0.major == ARRAY || TakeHead(s).value.0.major == MAP
    ensures var (h, rest) := TakeHead(s).value;
            depth + 1 <= SKIP_MAX_DEPTH && SkipFrom(s, pending + 1, depth) == SkipFrom(rest, pending + Held(h), depth + 1)
  {
    hide TakeHead, Held;
  }

  lemma SkipsScalar(s: seq<byte>, pending: nat, depth: nat)
    requires SkipFrom(s, pending + 1, depth).Some? && TakeHead(s).Some?
    requires TakeHead(s).value.0.major != ARRAY && TakeHead(s).value.0.major != MAP
    ensures var (h, rest) := TakeHead(s).value;
            && (h.major == UINT || h.major == NINT || (h.major == BLOB && h.argument <= |rest|))
            && SkipFrom(s, pending + 1, depth) == SkipFrom(if h.major == BLOB then rest[h.argument..] else rest, pending, depth)
  {
    hide TakeHead, Held;
  }

  lemma CoversNothing(s: seq<byte>, depth: nat)
    ensures Covers([], s, s, depth)
  {
    assert Encodings([]) + s == s;
  }

  lemma CoversScalar(s: seq<byte>, first: Item, others: seq<Item>, after: seq<byte>, end: seq<byte>, depth: nat) returns (items: seq<Item>)
    requires Walkable(first) && s == Encoding(first) + after && Containers(first) == 0 && Covers(others, after, end, depth)
    ensures |items| == 1 + |others| && Covers(items, s, end, depth)
  {
    hide Encoding, Containers, Encodings, AllContainers, Walkable;
    items := [first] + others;
    InFront(first, others, after, end);
  }

  lemma CoversContainer(s: seq<byte>, inner: seq<Item>, n: nat, end: seq<byte>, depth: nat) returns (items: seq<Item>)
    requires TakeHead(s).Some? && n <= |inner| && depth + 1 <= SKIP_MAX_DEPTH
    requires var (h, rest) := TakeHead(s).value;
             && (h.major == ARRAY || h.major == MAP) && n == Held(h)
             && Covers(inner, rest, end, depth + 1)
    ensures |items| == 1 + |inner| - n && Covers(items, s, end, depth)
  {
    hide TakeHead, Encoding, Containers, Encodings, AllContainers, Walkable;
    EncodingsSplit(inner, n);
    var first := ContainerIs(s, inner[..n]);
    items := [first] + inner[n..];
    var after := Encodings(inner[n..]) + end;
    assert TakeHead(s).value.1 == Encodings(inner[..n]) + after;
    InFront(first, inner[n..], after, end);
  }

  lemma InFront(first: Item, others: seq<Item>, after: seq<byte>, end: seq<byte>)
    requires Walkable(first) && AllWalkable(others)
    requires after == Encodings(others) + end
    ensures Encodings([first] + others) + end == Encoding(first) + after
    ensures AllContainers([first] + others) == Containers(first) + AllContainers(others)
  {
    hide Encoding, Containers, Walkable;
    assert ([first] + others)[1..] == others;
  }

  lemma ScalarIs(s: seq<byte>) returns (first: Item, after: seq<byte>)
    requires TakeHead(s).Some?
    requires var (h, rest) := TakeHead(s).value; h.major == UINT || h.major == NINT || (h.major == BLOB && h.argument <= |rest|)
    ensures var (h, rest) := TakeHead(s).value; after == if h.major == BLOB then rest[h.argument..] else rest
    ensures |after| < |s| && Walkable(first) && s == Encoding(first) + after && Containers(first) == 0
  {
    hide HeadBytes, TakeHead, Fits, WidthOf;
    var (h, rest) := TakeHead(s).value;
    var w := HeadIsWritten(s);
    if h.major == BLOB {
      first, after := Blob(rest[..h.argument], w), rest[h.argument..];
      assert rest == rest[..h.argument] + rest[h.argument..];
    } else {
      first, after := Number(h.major == NINT, h.argument, w), rest;
    }
  }

  lemma ContainerIs(s: seq<byte>, inner: seq<Item>) returns (first: Item)
    requires TakeHead(s).Some? && AllWalkable(inner)
    requires var (h, _) := TakeHead(s).value; (h.major == ARRAY || h.major == MAP) && |inner| == Held(h)
    ensures Walkable(first) && Containers(first) == 1 + AllContainers(inner)
    ensures var rest := TakeHead(s).value.1; forall after :: rest == Encodings(inner) + after ==> s == Encoding(first) + after
  {
    hide HeadBytes, TakeHead, Fits, WidthOf, Encodings;
    var (h, rest) := TakeHead(s).value;
    var w := HeadIsWritten(s);
    first := if h.major == MAP then Map(h.argument, inner, w) else Array(inner, w);
    forall after | rest == Encodings(inner) + after
      ensures s == Encoding(first) + after
    {
    }
  }

  lemma {:induction false} EncodingsSplit(items: seq<Item>, n: nat)
    requires n <= |items| && AllWalkable(items)
    ensures AllWalkable(items[..n]) && AllWalkable(items[n..])
    ensures Encodings(items) == Encodings(items[..n]) + Encodings(items[n..])
    ensures AllContainers(items) == AllContainers(items[..n]) + AllContainers(items[n..])
  {
    hide Encoding, Containers, Walkable;
    if n > 0 {
      EncodingsSplit(items[1..], n - 1);
      assert items[..n][0] == items[0];
      assert items[..n][1..] == items[1..][..n - 1];
      assert items[n..] == items[1..][n - 1..];
    } else {
      assert items[..0] == [] && items[0..] == items;
    }
  }

  /**
   * The skipper stops exactly at the end of an item: it accepts `front + rest`, leaving `rest`,
   * exactly when `front` is one item as it walks them, of at most eight containers.
   */
  lemma SkipIff(front: seq<byte>, rest: seq<byte>)
    ensures Skip(front + rest) == Some(rest) <==>
            exists i :: Walkable(i) && Encoding(i) == front && Containers(i) <= 8
  {
    hide SkipFrom, Encoding, Containers;
    if Skip(front + rest) == Some(rest) {
      var i := SkippedIsItem(front + rest, rest);
      assert front == Encoding(i) by {
        assert (front + rest)[..|front|] == front;
        assert (Encoding(i) + rest)[..|Encoding(i)|] == Encoding(i);
      }
    }
    if i :| Walkable(i) && Encoding(i) == front && Containers(i) <= SKIP_MAX_DEPTH {
      SkipsItem(i, rest, 0, 0);
      SkipNone(rest, Containers(i));
    }
  }

  lemma SkippedIsItem(s: seq<byte>, rest: seq<byte>) returns (i: Item)
    requires Skip(s) == Some(rest)
    ensures Walkable(i) && s == Encoding(i) + rest && Containers(i) <= SKIP_MAX_DEPTH
  {
    hide SkipFrom, Encoding, Containers;
    var items := SkippedIsItems(s, 1, 0);
    assert AllContainers(items) <= SKIP_MAX_DEPTH;
    i := items[0];
    assert items[1..] == [];
    assert Encodings(items) == Encoding(i) + [];
    assert Encodings(items) == Encoding(i);
  }

  lemma SkipIs(s: seq<byte>)
    ensures Skip(s) == SkipFrom(s, 1, 0)
  {
  }

  lemma SkipNone(s: seq<byte>, depth: nat)
    ensures SkipFrom(s, 0, depth) == Some(s)
  {
  }

  // ---- what is skipped, against RFC 8949 ----------------------------------------------

  /** No map head in the item declares 2^63 pairs or more. */
  predicate SmallMaps(i: Item)
    decreases i, 0
  {
    match i
    case Number(_, _, _) => true
    case Blob(_, _) => true
    case Array(items, _) => AllSmallMaps(items)
    case Map(declared, items, _) => declared < TWO63 && AllSmallMaps(items)
  }

  predicate AllSmallMaps(items: seq<Item>)
    decreases items, |items|
  {
    items == [] || (SmallMaps(items[0]) && AllSmallMaps(items[1..]))
  }

  /** A walked item is one of RFC 8949 exactly when its maps are small. */
  lemma {:induction false} WalkedIsWellFormedIff(i: Item)
    requires Walkable(i)
    ensures WellFormed(i) <==> SmallMaps(i)
    decreases i, 0
  {
    hide Fits;
    match i
    case Number(_, _, _) =>
    case Blob(_, _) =>
    case Array(items, _) => AllWalkedAreWellFormedIff(items);
    case Map(_, items, _) => AllWalkedAreWellFormedIff(items);
  }

  lemma {:induction false} AllWalkedAreWellFormedIff(items: seq<Item>)
    requires AllWalkable(items)
    ensures AllWellFormed(items) <==> AllSmallMaps(items)
    decreases items, |items|
  {
    hide Walkable, WellFormed, SmallMaps;
    if items != [] {
      WalkedIsWellFormedIff(items[0]);
      AllWalkedAreWellFormedIff(items[1..]);
    }
  }

  /** An item of RFC 8949 that fits into memory is walked as what it is. */
  lemma {:induction false} WellFormedIsWalked(i: Item)
    requires WellFormed(i) && |Encoding(i)| < TWO64
    ensures Walkable(i) && SmallMaps(i)
    decreases i, 0
  {
    hide Fits, HeadBytes;
    match i
    case Number(_, _, _) =>
    case Blob(_, _) =>
    case Array(items, _) => AllWellFormedAreWalked(items);
    case Map(_, items, _) => AllWellFormedAreWalked(items);
  }

  lemma {:induction false} AllWellFormedAreWalked(items: seq<Item>)
    requires AllWellFormed(items) && |Encodings(items)| < TWO64
    ensures AllWalkable(items) && AllSmallMaps(items)
    decreases items, |items|
  {
    hide Walkable, WellFormed, SmallMaps, Encoding;
    if items != [] {
      WellFormedIsWalked(items[0]);
      AllWellFormedAreWalked(items[1..]);
    }
  }

  function MajorOf(i: Item): (major: nat)
    ensures major < 8
  {
    match i
    case Number(negative, _, _) => if negative then NINT else UINT
    case Blob(_, _) => BLOB
    case Array(_, _) => ARRAY
    case Map(_, _, _) => MAP
  }

  function ArgumentOf(i: Item): nat {
    match i
    case Number(_, argument, _) => argument
    case Blob(bytes, _) => |bytes|
    case Array(items, _) => |items|
    case Map(declared, _, _) => declared
  }

  function BodyOf(i: Item): seq<byte>
    requires Fitting(i)
  {
    match i
    case Number(_, _, _) => []
    case Blob(bytes, _) => bytes
    case Array(items, _) => Encodings(items)
    case Map(_, items, _) => Encodings(items)
  }

  lemma EncodingIs(i: Item, rest: seq<byte>)
    requires Fitting(i)
    ensures Fits(ArgumentOf(i), i.w)
    ensures Encoding(i) + rest == HeadBytes(MajorOf(i), ArgumentOf(i), i.w) + (BodyOf(i) + rest)
  {
    hide HeadBytes, Fits, Encodings;
  }

  lemma SameHead(major: nat, argument: nat, w: nat, s: seq<byte>, major': nat, argument': nat, w': nat, s': seq<byte>)
    requires major < 8 && Fits(argument, w) && major' < 8 && Fits(argument', w')
    requires HeadBytes(major, argument, w) + s == HeadBytes(major', argument', w') + s'
    ensures major == major' && argument == argument' && w == w' && s == s'
  {
    hide HeadBytes, TakeHead, Fits;
    HeadRoundTrip(major, argument, w, s);
    HeadRoundTrip(major', argument', w', s');
    assert |HeadBytes(major, argument, w) + s| == 1 + w + |s|;
    assert |HeadBytes(major', argument', w') + s'| == 1 + w' + |s'|;
  }

  /** Bytes that begin with an item begin with that one only. */
  lemma {:induction false} ItemIsUnique(i: Item, rest: seq<byte>, i': Item, rest': seq<byte>)
    requires Walkable(i) && Walkable(i') && Encoding(i) + rest == Encoding(i') + rest'
    ensures i == i' && rest == rest'
    decreases i, 0
  {
    hide Encoding, Fitting, HeadBytes, Fits, Encodings, AllWalkable;
    EncodingIs(i, rest);
    EncodingIs(i', rest');
    SameHead(MajorOf(i), ArgumentOf(i), i.w, BodyOf(i) + rest, MajorOf(i'), ArgumentOf(i'), i'.w, BodyOf(i') + rest');
    match i
    case Number(_, _, _) =>
      assert [] + rest == rest && [] + rest' == rest';
    case Blob(bytes, _) =>
      assert (bytes + rest)[..|bytes|] == bytes && (i'.bytes + rest')[..|bytes|] == i'.bytes;
      assert (bytes + rest)[|bytes|..] == rest && (i'.bytes + rest')[|bytes|..] == rest';
    case Array(items, _) =>
      ItemsAreUnique(items, rest, i'.items, rest');
    case Map(_, items, _) =>
      ItemsAreUnique(items, rest, i'.items, rest');
  }

  lemma {:induction false} ItemsAreUnique(items: seq<Item>, rest: seq<byte>, items': seq<Item>, rest': seq<byte>)
    requires AllWalkable(items) && AllWalkable(items') && |items| == |items'|
    requires Encodings(items) + rest == Encodings(items') + rest'
    ensures items == items' && rest == rest'
    decreases items, |items|
  {
    hide Encoding, Walkable;
    if items != [] {
      hide Encodings;
      EncodingsOpen(items, rest);
      EncodingsOpen(items', rest');
      ItemIsUnique(items[0], Encodings(items[1..]) + rest, items'[0], Encodings(items'[1..]) + rest');
      ItemsAreUnique(items[1..], rest, items'[1..], rest');
      assert items == [items[0]] + items[1..] && items' == [items'[0]] + items'[1..];
    } else {
      assert [] + rest == rest && [] + rest' == rest';
    }
  }

  /** Every item of RFC 8949 is stepped over exactly when it holds at most eight containers. */
  lemma WellFormedIsSkippedIff(i: Item, rest: seq<byte>)
    requires WellFormed(i) && |Encoding(i)| < TWO64
    ensures Skip(Encoding(i) + rest) == Some(rest) <==> Containers(i) <= 8
  {
    hide Encoding, Containers, SkipFrom, WellFormed, Walkable, SmallMaps;
    WellFormedIsWalked(i);
    SkipsItem(i, rest, 0, 0);
    SkipNone(rest, Containers(i));
  }

  /**
   * What the skipper steps over is an item of RFC 8949 exactly when no map head in it declares
   * 2^63 pairs or more. (No C buffer is as long as 2^64 bytes.)
   */
  lemma SkippedIsWellFormedIff(front: seq<byte>, rest: seq<byte>)
    requires |front| < TWO64 && Skip(front + rest) == Some(rest)
    ensures (exists i :: WellFormed(i) && Encoding(i) == front) <==>
            (forall i :: Walkable(i) && Encoding(i) == front ==> SmallMaps(i))
  {
    hide SkipFrom, Skip, Encoding, Containers, WellFormed, Walkable, SmallMaps;
    SkipIff(front, rest);
    var i :| Walkable(i) && Encoding(i) == front && Containers(i) <= SKIP_MAX_DEPTH;
    WalkedIsWellFormedIff(i);
    if exists j :: WellFormed(j) && Encoding(j) == front {
      var j :| WellFormed(j) && Encoding(j) == front;
      WellFormedIsWalked(j);
      forall k | Walkable(k) && Encoding(k) == front
        ensures SmallMaps(k)
      {
        ItemIsUnique(j, [], k, []);
      }
    }
  }

  /** Doubling wraps: a map head that declares 2^63 pairs is skipped as an empty map. */
  lemma HugeMapIsEmpty(rest: seq<byte>)
    ensures var front := [0xBB, 0x80, 0, 0, 0, 0, 0, 0, 0];
            TakeHead(front + rest) == Some((Head(MAP, TWO63), rest)) && Skip(front + rest) == Some(rest)
  {
    WidthLimits();
    var i := Map(TWO63, [], 8);
    assert 2 * TWO63 % TWO64 == 0;
    var front: seq<byte> := [0xBB, 0x80, 0, 0, 0, 0, 0, 0, 0];
    HeadRoundTrip(MAP, TWO63, 8, rest);
    HugeHead();
    SkipNone(rest, 1);
  }

  lemma HugeHead()
    ensures Fits(TWO63, 8) && HeadBytes(MAP, TWO63, 8) == [0xBB, 0x80, 0, 0, 0, 0, 0, 0, 0]
  {
    WidthLimits();
    assert BigEndian(0x80, 1) == [0x80];
    assert BigEndian(0x8000, 2) == [0x80, 0];
    assert BigEndian(0x80_0000, 3) == [0x80, 0, 0];
    assert BigEndian(0x8000_0000, 4) == [0x80, 0, 0, 0];
    assert BigEndian(0x80_0000_0000, 5) == [0x80, 0, 0, 0, 0];
    assert BigEndian(0x8000_0000_0000, 6) == [0x80, 0, 0, 0, 0, 0];
    assert BigEndian(0x80_0000_0000_0000, 7) == [0x80, 0, 0, 0, 0, 0, 0];
    assert BigEndian(TWO63, 8) == [0x80, 0, 0, 0, 0, 0, 0, 0];
  }

  // ---- typed reads ---------------------------------------------------------------------

  function TakeTyped(s: seq<byte>, expected: nat): (r: Option<(nat, seq<byte>)>)
    ensures r.Some? ==> |r.value.1| < |s| && r.value.1 == s[|s| - |r.value.1|..]
  {
    match TakeHead(s)
    case None => None
    case Some((h, rest)) => if h.major == expected then Some((h.argument, rest)) else None
  }

  /** A signed 64-bit number: -1 - n for a negative one. */
  function TakeInt(s: seq<byte>): Option<(int, seq<byte>)> {
    match TakeHead(s)
    case None => None
    case Some((h, rest)) =>
      if h.argument >= TWO63 then None
      else if h.major == UINT then Some((h.argument, rest))
      else if h.major == NINT then Some((-1 - h.argument, rest))
      else None
  }

  /** An array head; more items than bytes left cannot be honest. */
  function TakeArray(s: seq<byte>): (r: Option<(nat, seq<byte>)>)
    ensures r.Some? ==> |r.value.1| < |s| && r.value.1 == s[|s| - |r.value.1|..]
  {
    match TakeTyped(s, ARRAY)
    case None => None
    case Some((n, rest)) => if n > |rest| then None else Some((n, rest))
  }

  function TakeMap(s: seq<byte>): (r: Option<(nat, seq<byte>)>)
    ensures r.Some? ==> |r.value.1| < |s| && r.value.1 == s[|s| - |r.value.1|..]
  {
    match TakeTyped(s, MAP)
    case None => None
    case Some((n, rest)) => if n > |rest| / 2 + 1 then None else Some((n, rest))
  }

  function IntBytes(value: int): seq<byte>
    requires -TWO63 <= value < TWO63
  {
    if value >= 0 then Canonical(UINT, value) else Canonical(NINT, -1 - value)
  }

  /** Every 64-bit number, INT64_MIN included, survives the wire. */
  lemma IntRoundTrip(value: int, rest: seq<byte>)
    requires -TWO63 <= value < TWO63
    ensures TakeInt(IntBytes(value) + rest) == Some((value, rest))
  {
    hide HeadBytes, TakeHead, Fits;
    var major, argument := if value >= 0 then UINT else NINT, if value >= 0 then value else -1 - value;
    HeadRoundTrip(major, argument, Shortest(argument), rest);
  }

  /** Of the integers on the wire exactly those of 64 signed bits are read. */
  lemma IntIff(major: nat, argument: nat, w: nat, rest: seq<byte>)
    requires major < 8 && Fits(argument, w)
    ensures TakeInt(HeadBytes(major, argument, w) + rest) ==
            if major == 0 && argument < 0x8000_0000_0000_0000 then Some((argument, rest))
            else if major == 1 && argument < 0x8000_0000_0000_0000 then Some((-1 - argument, rest))
            else None
  {
    hide HeadBytes, TakeHead, Fits;
    HeadRoundTrip(major, argument, w, rest);
  }

  /** An array may not declare more items than bytes follow, nor a map more pairs than half of them and one. */
  lemma CountsAreBounded(major: nat, argument: nat, w: nat, rest: seq<byte>)
    requires major < 8 && Fits(argument, w)
    ensures TakeArray(HeadBytes(major, argument, w) + rest) == if major == 4 && argument <= |rest| then Some((argument, rest)) else None
    ensures TakeMap(HeadBytes(major, argument, w) + rest) == if major == 5 && argument <= |rest| / 2 + 1 then Some((argument, rest)) else None
  {
    hide HeadBytes, TakeHead, Fits;
    HeadRoundTrip(major, argument, w, rest);
  }

  lemma TypedRoundTrip(major: nat, argument: nat, w: nat, rest: seq<byte>)
    requires major < 8 && Fits(argument, w)
    ensures TakeTyped(HeadBytes(major, argument, w) + rest, major) == Some((argument, rest))
  {
    hide HeadBytes, TakeHead, Fits;
    HeadRoundTrip(major, argument, w, rest);
  }

  /** A cursor over a received message; the first failure sticks. */
  class Reader {
    const buf: seq<byte>
    var pos: nat
    var error: bool

    ghost predicate Valid()
      reads this
    {
      pos <= |buf| <= MAX_LEN
    }

    ghost function Rest(): seq<byte>
      reads this
      requires Valid()
    {
      buf[pos..]
    }

    constructor (buf: seq<byte>)
      requires |buf| <= MAX_LEN
      ensures Valid() && this.buf == buf && Rest() == buf && !error
    {
      this.buf, pos, error := buf, 0, false;
    }

    method ReadHead() returns (ok: bool, h: Head)
      requires Valid()
      modifies this
      ensures Valid() && ok == !error && ok == (!old(error) && TakeHead(old(Rest())).Some?)
      ensures ok ==> TakeHead(old(Rest())) == Some((h, Rest()))
    {
      hide Val, FromBigEndian;
      h := Head(0, 0);
      if error || pos >= |buf| {
        error := true;
        return false, h;
      }
      ghost var s := Rest();
      var initial := buf[pos];
      pos := pos + 1;
      var major, info := Val(initial) / 32, Val(initial) % 32;
      if info < 24 { return true, Head(major, info); }
      if info >= 28 {
        error := true;
        return false, h;
      }
      var extra := if info == 24 then 1 else if info == 25 then 2 else if info == 26 then 4 else 8;
      if pos + extra > |buf| {
        error := true;
        return false, h;
      }
      var value := ReadArgument(extra);
      assert s[1..1 + extra] == buf[old(pos) + 1..old(pos) + 1 + extra];
      return true, Head(major, value);
    }

    method ReadArgument(extra: nat) returns (value: nat)
      requires Valid() && pos + extra <= |buf|
      modifies this`pos
      ensures Valid() && pos == old(pos) + extra && value == FromBigEndian(buf[old(pos)..pos])
    {
      hide Val;
      value := 0;
      for i := 0 to extra
        invariant pos == old(pos) + i && Valid()
        invariant value == FromBigEndian(buf[old(pos)..pos])
      {
        assert buf[old(pos)..pos + 1][..i] == buf[old(pos)..pos];
        value := value * 256 + Val(buf[pos]);
        pos := pos + 1;
      }
    }

    method ReadTyped(expected: nat) returns (ok: bool, argument: nat)
      requires Valid()
      modifies this
      ensures Valid() && ok == !error && ok == (!old(error) && TakeTyped(old(Rest()), expected).Some?)
      ensures ok ==> TakeTyped(old(Rest()), expected) == Some((argument, Rest()))
    {
      var h;
      ok, h := ReadHead();
      argument := h.argument;
      if ok && h.major != expected {
        error := true;
        ok := false;
      }
    }

    method ReadUint() returns (ok: bool, value: nat)
      requires Valid()
      modifies this
      ensures Valid() && ok == !error && ok == (!old(error) && TakeTyped(old(Rest()), UINT).Some?)
      ensures ok ==> TakeTyped(old(Rest()), UINT) == Some((value, Rest()))
    {
      ok, value := ReadTyped(UINT);
    }

    method ReadInt() returns (ok: bool, value: int)
      requires Valid()
      modifies this
      ensures Valid() && ok == !error && ok == (!old(error) && TakeInt(old(Rest())).Some?)
      ensures ok ==> TakeInt(old(Rest())) == Some((value, Rest()))
    {
      var h;
      ok, h := ReadHead();
      value := h.argument;
      if !ok { return; }
      if h.major == UINT && h.argument < TWO63 { return; }
      if h.major == NINT && h.argument < TWO63 { return true, -1 - h.argument; }
      error := true;
      ok := false;
    }

    method ReadArray() returns (ok: bool, items: nat)
      requires Valid()
      modifies this
      ensures Valid() && ok == (!old(error) && TakeArray(old(Rest())).Some?) && ok == !error
      ensures ok ==> TakeArray(old(Rest())) == Some((items, Rest()))
    {
      ok, items := ReadTyped(ARRAY);
      if ok && items > |buf| - pos {
        error := true;
        ok := false;
      }
    }

    method ReadMap() returns (ok: bool, pairs: nat)
      requires Valid()
      modifies this
      ensures Valid() && ok == !error && ok == (!old(error) && TakeMap(old(Rest())).Some?)
      ensures ok ==> TakeMap(old(Rest())) == Some((pairs, Rest()))
    {
      ok, pairs := ReadTyped(MAP);
      if ok && pairs > (|buf| - pos) / 2 + 1 {
        error := true;
        ok := false;
      }
    }

    /** Moves past `n` bytes, if there are as many. */
    method StepOver(n: nat) returns (ok: bool)
      requires Valid() && !error
      modifies this
      ensures Valid() && ok == !error && ok == (n <= |old(Rest())|)
      ensures ok ==> Rest() == old(Rest())[n..] && pos == old(pos) + n
    {
      if n > |buf| - pos {
        error := true;
        return false;
      }
      pos := pos + n;
      return true;
    }

    /** One head of the work in progress: what it asks for is done, or added to what is pending. */
    method SkipHead(pending: nat, depth: nat) returns (ok: bool, left: nat, met: nat)
      requires Valid() && !error && pending > 0
      modifies this
      ensures Valid() && ok == !error && (ok ==> pos > old(pos))
      ensures SkipFrom(old(Rest()), pending, depth) == if ok then SkipFrom(Rest(), left, met) else None
    {
      hide TakeHead, SkipFrom;
      left, met := pending - 1, depth;
      ghost var s := Rest();
      var h;
      ok, h := ReadHead();
      if !ok {
        SkipNoHead(s, left, depth);
        return;
      }
      SkipUnfolds(s, left, depth);
      if h.major == UINT || h.major == NINT {
      } else if h.major == BLOB {
        ok := StepOver(h.argument);
      } else if h.major == ARRAY || h.major == MAP {
        met := depth + 1;
        var items := Held(h);
        if met > SKIP_MAX_DEPTH || items > |buf| - pos {
          error := true;
          return false, left, met;
        }
        left := left + items;
      } else {
        error := true;
        return false, left, met;
      }
    }


    /** Steps over one item of any shape without recursion; always ends, and never past the buffer. */
    method SkipItem() returns (ok: bool)
      requires Valid()
      modifies this
      ensures Valid() && ok == !error && ok == (!old(error) && Skip(old(Rest())).Some?)
      ensures ok ==> Skip(old(Rest())) == Some(Rest())
    {
      hide SkipFrom, Skip;
      if error { return false; }
      var pending: nat, depth: nat := 1, 0;
      ghost var goal := Skip(Rest());
      SkipIs(Rest());
      while pending > 0
        invariant Valid() && !error
        invariant SkipFrom(Rest(), pending, depth) == goal
        decreases |buf| - pos
      {
        ok, pending, depth := SkipHead(pending, depth);
        if !ok { return; }
      }
      SkipNone(Rest(), depth);
      ok := true;
    }
  }

  lemma SkipNoHead(s: seq<byte>, pending: nat, depth: nat)
    requires TakeHead(s).None?
    ensures SkipFrom(s, pending + 1, depth) == None
  {
    hide TakeHead;
  }

  /** A cursor over a buffer being filled; once something does not fit nothing more is written. */
  class Writer {
    const out: array<byte>
    var len: nat
    var overflow: bool

    ghost predicate Valid()
      reads this
    {
      len <= out.Length <= MAX_LEN
    }

    /** All of `s` was written: the buffer holds it, or it does not fit and that is remembered. */
    ghost predicate Wrote(s: seq<byte>)
      reads this, out
    {
      Valid() && overflow == (|s| > out.Length) && (!overflow ==> out[..len] == s)
    }

    constructor (out: array<byte>)
      requires out.Length <= MAX_LEN
      ensures this.out == out && Wrote([])
    {
      this.out, len, overflow := out, 0, false;
    }

    method Put(b: byte, ghost s: seq<byte>) returns (ok: bool)
      requires Wrote(s)
      modifies this, out
      ensures Wrote(s + [b]) && ok == !overflow
    {
      if overflow { return false; }
      if len >= out.Length {
        overflow := true;
        return false;
      }
      out[len] := b;
      len := len + 1;
      ok := true;
    }

    /** A head in its shortest form. */
    method WriteHead(major: nat, argument: nat, ghost s: seq<byte>) returns (ok: bool)
      requires Wrote(s) && major < 8 && argument < TWO64
      modifies this, out
      ensures Wrote(s + Canonical(major, argument)) && ok == !overflow
    {
      hide Fits, Info, BigEndian;
      var w := Shortest(argument);
      var bytes := BigEndian(argument, w);
      ghost var head := Canonical(major, argument);
      ok := Put(U8(32 * major + Info(argument, w)), s);
      assert s + [head[0]] == s + head[..1];
      for i := 0 to w
        invariant Wrote(s + head[..1 + i]) && ok == !overflow
      {
        assert head[1 + i] == bytes[i];
        assert s + head[..1 + i] + [head[1 + i]] == s + head[..2 + i];
        if ok {
          ok := Put(bytes[i], s + head[..1 + i]);
        }
      }
      assert head[..1 + w] == head;
    }

    method WriteUint(value: nat, ghost s: seq<byte>)
      requires Wrote(s) && value < TWO64
      modifies this, out
      ensures Wrote(s + Canonical(UINT, value))
    {
      var ok := WriteHead(UINT, value, s);
    }

    method WriteInt(value: int, ghost s: seq<byte>)
      requires Wrote(s) && -TWO63 <= value < TWO63
      modifies this, out
      ensures Wrote(s + IntBytes(value))
    {
      var ok;
      if value >= 0 {
        ok := WriteHead(UINT, value, s);
      } else {
        ok := WriteHead(NINT, -1 - value, s);
      }
    }

    method WriteBytes(bytes: seq<byte>, ghost s: seq<byte>)
      requires Wrote(s) && |bytes| <= MAX_LEN
      modifies this, out
      ensures Wrote(s + Canonical(BLOB, |bytes|) + bytes)
    {
      var ok := WriteHead(BLOB, |bytes|, s);
      if !ok || |bytes| == 0 { return; }
      if len + |bytes| > out.Length {
        overflow := true;
        return;
      }
      CopyInto(bytes, out, len);
      len := len + |bytes|;
    }

    method WriteArray(items: nat, ghost s: seq<byte>)
      requires Wrote(s) && items < TWO64
      modifies this, out
      ensures Wrote(s + Canonical(ARRAY, items))
    {
      var ok := WriteHead(ARRAY, items, s);
    }

    method WriteMap(pairs: nat, ghost s: seq<byte>)
      requires Wrote(s) && pairs < TWO64
      modifies this, out
      ensures Wrote(s + Canonical(MAP, pairs))
    {
      var ok := WriteHead(MAP, pairs, s);
    }

    method Finish() returns (r: int)
      ensures r == if overflow then -1 else len
    {
      r := if overflow then -1 else len;
    }
  }

  // ---- examples of RFC 8949, appendix A -------------------------------------------------------

  lemma Examples()
    ensures Canonical(UINT, 10) == [0x0A] && Canonical(UINT, 24) == [0x18, 0x18] && Canonical(UINT, 1000) == [0x19, 0x03, 0xE8]
    ensures Canonical(NINT, 9) == [0x29] && Canonical(NINT, 999) == [0x39, 0x03, 0xE7]
    ensures Canonical(BLOB, 4) == [0x44] && Canonical(ARRAY, 25) == [0x98, 0x19] && Canonical(MAP, 2) == [0xA2]
    ensures Canonical(UINT, 1_000_000) == [0x1A, 0x00, 0x0F, 0x42, 0x40]
  {
    hide U8, BigEndian, Shortest;
    ShortestIs(10);
    ShortestIs(24);
    ShortestIs(1000);
    ShortestIs(1_000_000);
    ShortestIs(9);
    ShortestIs(999);
    ShortestIs(4);
    ShortestIs(25);
    ShortestIs(2);
    SmallBytes();
    OneDigit();
    TwoDigits();
    FourDigits();
  }

  lemma ShortestIs(n: nat)
    requires n < TWO64
    ensures Shortest(n) == if n < 24 then 0 else if n < 256 then 1 else if n < 65536 then 2 else if n < TWO32 then 4 else 8
  {
  }

  lemma SmallBytes()
    ensures U8(10) == 0x0A && U8(0x18) == 0x18 && U8(0x19) == 0x19 && U8(3) == 0x03 && U8(0xE8) == 0xE8 && U8(0x29) == 0x29
    ensures U8(0x39) == 0x39 && U8(0xE7) == 0xE7 && U8(0x44) == 0x44 && U8(0x98) == 0x98 && U8(0xA2) == 0xA2
    ensures U8(0x1A) == 0x1A && U8(0) == 0x00 && U8(15) == 0x0F && U8(66) == 0x42 && U8(64) == 0x40
  {
  }

  lemma OneDigit()
    ensures BigEndian(24, 1) == [0x18] && BigEndian(25, 1) == [0x19]
  {
  }

  lemma TwoDigits()
    ensures BigEndian(1000, 2) == [0x03, 0xE8] && BigEndian(999, 2) == [0x03, 0xE7]
  {
    assert BigEndian(3, 1) == [0x03];
  }

  lemma FourDigits()
    ensures BigEndian(1_000_000, 4) == [0x00, 0x0F, 0x42, 0x40]
  {
    assert BigEndian(0, 1) == [0x00];
    assert BigEndian(15, 2) == [0x00, 0x0F];
    assert BigEndian(3906, 3) == [0x00, 0x0F, 0x42];
  }
}
