/** Bytes as they travel on the wire, and the few conversions the codecs need. */
module Bytes {

  type byte = bv8

  const TWO32 := 0x1_0000_0000

  datatype Option<+T> = None | Some(value: T)

  /** The byte holding `n`. */
  function U8(n: nat): (b: byte)
    requires n < 256
    ensures Val(b) == n
  {
    EveryNumber(n);
    var b: byte :| Val(b) == n;
    b
  }

  lemma {:induction false} EveryNumber(n: nat)
    requires n < 256
    ensures exists b: byte :: Val(b) == n
  {
    if n > 0 {
      EveryNumber(n - 1);
      var b: byte :| Val(b) == n - 1;
      NextByte(b);
      assert Val(b + 1) == n;
    } else {
      assert Val(0) == 0;
    }
  }

  lemma NextByte(b: byte)
    requires Val(b) < 255
    ensures Val(b + 1) == Val(b) + 1
  {
  }

  /** The number held in a byte; `U8(Val(b)) == b` for every byte. */
  function Val(b: byte): (n: nat)
    ensures n < 256
  {
    b as nat
  }

  /** A big-endian 16-bit number, and its two halves. */
  function Be16(hi: byte, lo: byte): (n: nat)
    ensures n < 0x1_0000
  {
    256 * Val(hi) + Val(lo)
  }

  function Hi8(n: nat): byte
    requires n < 0x1_0000
  {
    U8(n / 256)
  }

  function Lo8(n: nat): byte {
    U8(n % 256)
  }

  function Min(a: int, b: int): int {
    if a <= b then a else b
  }

  function Max(a: int, b: int): int {
    if a >= b then a else b
  }

  /** Copies a run of bytes into a buffer. */
  method CopyInto(src: seq<byte>, out: array<byte>, at: nat)
    requires at + |src| <= out.Length
    modifies out
    ensures out[..] == old(out[..at]) + src + old(out[at + |src|..])
  {
    for i := 0 to |src|
      invariant out[..at + i] == old(out[..at]) + src[..i]
      invariant out[at + i..] == old(out[at + i..])
    {
      out[at + i] := src[i];
    }
  }
}
