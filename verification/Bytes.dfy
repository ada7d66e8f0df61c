/** Buffers are sequences of byte values, as Node's Buffer shows them. */
module Bytes {
  type byte = x: int | 0 <= x < 256

  /** The `width` low-order bytes of n, least significant first (Buffer.writeUInt..LE). */
  function LittleEndian(n: nat, width: nat): (s: seq<byte>)
    ensures |s| == width
  {
    if width == 0 then [] else [n % 256] + LittleEndian(n / 256, width - 1)
  }

  /** The 32-bit number in the four bytes from `at` on, least significant first. */
  function Number32(s: seq<byte>, at: nat): nat
    requires at + 4 <= |s|
  {
    s[at] as nat + 0x100 * s[at + 1] as nat + 0x1_0000 * s[at + 2] as nat + 0x100_0000 * s[at + 3] as nat
  }

  function Number64(s: seq<byte>, at: nat): nat
    requires at + 8 <= |s|
  {
    Number32(s, at) + 0x1_0000_0000 * Number32(s, at + 4)
  }

  /** Field by field, what was written is what the bytes weigh. */
  lemma FourBytes(n: nat, width: nat)
    requires width >= 4
    ensures Number32(LittleEndian(n, width), 0) == n % 0x1_0000_0000
    ensures LittleEndian(n, width)[4..] == LittleEndian(n / 0x1_0000_0000, width - 4)
  {
    var a := n / 256;
    var b := a / 256;
    var c := b / 256;
    assert LittleEndian(n, width) == [n % 256] + LittleEndian(a, width - 1);
    assert LittleEndian(a, width - 1) == [a % 256] + LittleEndian(b, width - 2);
    assert LittleEndian(b, width - 2) == [b % 256] + LittleEndian(c, width - 3);
    assert LittleEndian(c, width - 3) == [c % 256] + LittleEndian(c / 256, width - 4);
    assert c / 256 == n / 0x1_0000_0000;
  }

  lemma OnlyFourBytes(n: nat)
    requires n < 0x1_0000_0000
    ensures Number32(LittleEndian(n, 4), 0) == n
  {
    hide Number32, LittleEndian;
    FourBytes(n, 4);
  }

  lemma NumberFrom(s: seq<byte>, at: nat)
    requires at + 4 <= |s|
    ensures Number32(s, at) == Number32(s[at..], 0)
  {
  }

  lemma EightBytes(n: nat)
    requires n < 0x1_0000_0000_0000_0000
    ensures Number64(LittleEndian(n, 8), 0) == n
  {
    hide Number32, LittleEndian;
    var high := n / 0x1_0000_0000;
    assert high < 0x1_0000_0000 && n == 0x1_0000_0000 * high + n % 0x1_0000_0000;
    FourBytes(n, 8);
    OnlyFourBytes(high);
    NumberFrom(LittleEndian(n, 8), 4);
  }
}
