/** Machine integers: bytes, 64-bit addresses and their little-endian images. */
module Words {

  const WORD_LIMIT: int := 0x1_0000_0000_0000_0000
  const USIZE_MAX: int := 0xFFFF_FFFF_FFFF_FFFF

  type Byte = x: int | 0 <= x < 256
  type Usize = x: int | 0 <= x < 0x1_0000_0000_0000_0000

  function Power256(n: nat): (p: nat)
    ensures p > 0
  {
    if n == 0 then 1 else 256 * Power256(n - 1)
  }

  function ToLe(v: nat, n: nat): (bs: seq<Byte>)
    ensures |bs| == n
  {
    if n == 0 then [] else [v % 256] + ToLe(v / 256, n - 1)
  }

  function FromLe(bs: seq<Byte>): nat {
    if bs == [] then 0 else bs[0] + 256 * FromLe(bs[1..])
  }

  lemma {:induction false} FromLeBound(bs: seq<Byte>)
    ensures FromLe(bs) < Power256(|bs|)
  {
    if bs != [] {
      FromLeBound(bs[1..]);
    }
  }

  lemma {:induction false} LeRoundTrip(v: nat, n: nat)
    requires v < Power256(n)
    ensures FromLe(ToLe(v, n)) == v
  {
    if n > 0 {
      LeRoundTrip(v / 256, n - 1);
      assert ToLe(v, n)[1..] == ToLe(v / 256, n - 1);
    }
  }

  /** Four bytes with their little-endian weights. */
  function Weighted(b0: int, b1: int, b2: int, b3: int): int {
    b0 + 0x100 * b1 + 0x1_0000 * b2 + 0x100_0000 * b3
  }

  lemma FourBytes(bs: seq<Byte>)
    requires |bs| == 4
    ensures FromLe(bs) == Weighted(bs[0], bs[1], bs[2], bs[3])
  {
    var b, c, d := bs[1..], bs[2..], bs[3..];
    assert b[1..] == c && c[1..] == d && d[1..] == [];
    assert FromLe(d) == d[0] + 256 * FromLe([]);
    assert FromLe(c) == c[0] + 256 * FromLe(d);
    assert FromLe(b) == b[0] + 256 * FromLe(c);
  }

  /** The 8-byte image of an address reads back as that address. */
  lemma WordRoundTrip(v: Usize)
    ensures FromLe(ToLe(v, 8)) == v
  {
    assert Power256(8) == WORD_LIMIT;
    LeRoundTrip(v, 8);
  }

  /** Its bytes, least significant first, add up to it with their weights. */
  lemma WordBytes(v: Usize)
    ensures var bs := ToLe(v, 8);
      v == Weighted(bs[0], bs[1], bs[2], bs[3]) + 0x1_0000_0000 * Weighted(bs[4], bs[5], bs[6], bs[7])
  {
    WordRoundTrip(v);
    EightBytes(ToLe(v, 8));
  }

  lemma EightBytes(bs: seq<Byte>)
    requires |bs| == 8
    ensures FromLe(bs)
         == Weighted(bs[0], bs[1], bs[2], bs[3]) + 0x1_0000_0000 * Weighted(bs[4], bs[5], bs[6], bs[7])
  {
    FourBytes(bs[4..]);
    var b, c, d, e := bs[1..], bs[2..], bs[3..], bs[4..];
    assert b[1..] == c && c[1..] == d && d[1..] == e;
    assert FromLe(d) == d[0] + 256 * FromLe(e);
    assert FromLe(c) == c[0] + 256 * FromLe(d);
    assert FromLe(b) == b[0] + 256 * FromLe(c);
  }

  predicate FitsI32(d: int) {
    -0x8000_0000 <= d < 0x8000_0000
  }

  /** `i32::to_le_bytes`: two's complement, least significant byte first. */
  function EncodeI32(d: int): (bs: seq<Byte>)
    requires FitsI32(d)
    ensures |bs| == 4
  {
    ToLe(if d < 0 then d + 0x1_0000_0000 else d, 4)
  }

  function DecodeI32(bs: seq<Byte>): int
    requires |bs| == 4
  {
    var u := FromLe(bs);
    if u >= 0x8000_0000 then u - 0x1_0000_0000 else u
  }

  lemma I32RoundTrip(d: int)
    requires FitsI32(d)
    ensures DecodeI32(EncodeI32(d)) == d
  {
    var u := if d < 0 then d + 0x1_0000_0000 else d;
    assert Power256(4) == 0x1_0000_0000;
    LeRoundTrip(u, 4);
  }

  /** The four bytes are those of `d` modulo 2^32, least significant first. */
  lemma I32Bytes(d: int)
    requires FitsI32(d)
    ensures var bs := EncodeI32(d); Weighted(bs[0], bs[1], bs[2], bs[3]) == d % 0x1_0000_0000
  {
    hide Weighted;
    var u := if d < 0 then d + 0x1_0000_0000 else d;
    assert Power256(4) == 0x1_0000_0000;
    LeRoundTrip(u, 4);
    FourBytes(EncodeI32(d));
    TwosComplement(d);
  }

  lemma TwosComplement(d: int)
    requires FitsI32(d)
    ensures d % 0x1_0000_0000 == if d < 0 then d + 0x1_0000_0000 else d
  {
  }
}
