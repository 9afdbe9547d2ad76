/** Machine integers of the E1.31 wire format and network byte order
    (the `htons`/`htonl` conversions), written out as explicit big-endian
    arithmetic instead of host-dependent type punning. */
module Bytes {

  newtype byte = x: int | 0 <= x < 0x100
  newtype uint16 = x: int | 0 <= x < 0x1_0000
  newtype uint32 = x: int | 0 <= x < 0x1_0000_0000

  /** 256 to the power n: one more than the largest n-byte unsigned value. */
  function Pow256(n: nat): (p: nat)
    ensures p > 0
  {
    if n == 0 then 1 else 256 * Pow256(n - 1)
  }

  lemma Pow256Widths()
    ensures Pow256(1) == 0x100 && Pow256(2) == 0x1_0000 && Pow256(4) == 0x1_0000_0000
  {
  }

  /** The unsigned integer whose big-endian (network order) encoding is s. */
  function FromBigEndian(s: seq<byte>): (v: nat)
    ensures v < Pow256(|s|)
  {
    if |s| == 0 then 0 else FromBigEndian(s[..|s| - 1]) * 256 + s[|s| - 1] as nat
  }

  /** The n-byte big-endian encoding of v. */
  function ToBigEndian(v: nat, n: nat): (s: seq<byte>)
    requires v < Pow256(n)
    ensures |s| == n
  {
    if n == 0 then [] else ToBigEndian(v / 256, n - 1) + [(v % 256) as byte]
  }

  lemma {:induction false} FromToBigEndian(v: nat, n: nat)
    requires v < Pow256(n)
    ensures FromBigEndian(ToBigEndian(v, n)) == v
  {
    if n > 0 {
      var s := ToBigEndian(v, n);
      assert s[..n - 1] == ToBigEndian(v / 256, n - 1);
      FromToBigEndian(v / 256, n - 1);
    }
  }

  lemma {:induction false} ToFromBigEndian(s: seq<byte>)
    ensures ToBigEndian(FromBigEndian(s), |s|) == s
  {
    if |s| > 0 {
      var n := |s|;
      var v := FromBigEndian(s);
      assert v / 256 == FromBigEndian(s[..n - 1]);
      assert v % 256 == s[n - 1] as nat;
      ToFromBigEndian(s[..n - 1]);
      assert s == s[..n - 1] + [s[n - 1]];
    }
  }

  /** Reading a 16-bit field: `htons` of the two bytes at `at`. */
  function U16At(raw: seq<byte>, at: nat): (v: uint16)
    requires at + 2 <= |raw|
    ensures v as int == raw[at] as int * 0x100 + raw[at + 1] as int
  {
    var s := raw[at..at + 2];
    assert s[..1][..0] == [];
    assert FromBigEndian(s[..1]) == raw[at] as nat;
    assert FromBigEndian(s) == FromBigEndian(s[..1]) * 256 + raw[at + 1] as nat;
    Pow256Widths();
    FromBigEndian(s) as uint16
  }

  /** Reading a 32-bit field: `htonl` of the four bytes at `at`. */
  function U32At(raw: seq<byte>, at: nat): (v: uint32)
    requires at + 4 <= |raw|
    ensures v as int == FromBigEndian(raw[at..at + 4])
    ensures v as int == raw[at] as int * 0x100_0000 + raw[at + 1] as int * 0x1_0000
      + raw[at + 2] as int * 0x100 + raw[at + 3] as int
  {
    var s := raw[at..at + 4];
    assert s[..1][..0] == [];
    assert s[..2][..1] == s[..1];
    assert s[..3][..2] == s[..2];
    assert FromBigEndian(s[..1]) == raw[at] as nat;
    assert FromBigEndian(s[..2]) == FromBigEndian(s[..1]) * 256 + raw[at + 1] as nat;
    assert FromBigEndian(s[..3]) == FromBigEndian(s[..2]) * 256 + raw[at + 2] as nat;
    assert FromBigEndian(s) == FromBigEndian(s[..3]) * 256 + raw[at + 3] as nat;
    Pow256Widths();
    FromBigEndian(s) as uint32
  }

  function U16Bytes(v: uint16): (s: seq<byte>)
    ensures |s| == 2 && FromBigEndian(s) == v as nat
  {
    FromToBigEndian(v as nat, 2);
    ToBigEndian(v as nat, 2)
  }

  function U32Bytes(v: uint32): (s: seq<byte>)
    ensures |s| == 4 && FromBigEndian(s) == v as nat
  {
    FromToBigEndian(v as nat, 4);
    ToBigEndian(v as nat, 4)
  }

  /** Conversion to `uint8_t`: the value modulo 2^8. */
  function Wrap8(x: int): (b: byte)
    ensures b as int % 0x100 == x % 0x100
  {
    (x % 0x100) as byte
  }

  /** Conversion to `uint16_t`: the value modulo 2^16. */
  function Wrap16(x: int): (v: uint16)
    ensures v as int % 0x1_0000 == x % 0x1_0000
  {
    (x % 0x1_0000) as uint16
  }

  /** `x++` on a `uint32_t`: one more, wrapping to 0 after 2^32 - 1. */
  function Inc32(x: uint32): (y: uint32)
    ensures y as int == (x as int + 1) % 0x1_0000_0000
  {
    if x == 0xFFFF_FFFF then 0 else x + 1
  }

  /** Counting with `Inc32` is counting modulo 2^32. */
  lemma Inc32Counts(x: uint32, a: int)
    requires x as int == a % 0x1_0000_0000
    ensures Inc32(x) as int == (a + 1) % 0x1_0000_0000
  {
  }
}
