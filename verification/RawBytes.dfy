/** Integers in a backup stream: little-endian, of four or eight bytes. */
module RawBytes {

  type byte = b: int | 0 <= b < 256

  /** 256 to the power `k`. */
  function Pow(k: nat): (r: nat)
    ensures r > 0
  {
    if k == 0 then 1 else 256 * Pow(k - 1)
  }

  function Little(n: nat, k: nat): (s: seq<byte>)
    ensures |s| == k
  {
    if k == 0 then [] else [n % 256] + Little(n / 256, k - 1)
  }

  function Value(s: seq<byte>): nat {
    if s == [] then 0 else s[0] + 256 * Value(s[1..])
  }

  lemma {:induction false} ValueOfLittle(n: nat, k: nat)
    requires n < Pow(k)
    ensures Value(Little(n, k)) == n
  {
    if k > 0 {
      assert Little(n, k)[1..] == Little(n / 256, k - 1);
      ValueOfLittle(n / 256, k - 1);
    }
  }

  const TWO31: int := 0x8000_0000
  const TWO32: int := 0x1_0000_0000
  const TWO63: int := 0x8000_0000_0000_0000
  const TWO64: int := 0x1_0000_0000_0000_0000

  lemma Powers()
    ensures Pow(4) == TWO32 && Pow(8) == TWO64
  {
    assert Pow(2) == 256 * 256 && Pow(4) == 256 * 256 * Pow(2);
    assert Pow(6) == 256 * 256 * Pow(4) && Pow(8) == 256 * 256 * Pow(6);
  }

  /** The bits of a value in a word of size `m`, and the signed value of such bits. */
  function Bits(v: int, m: int): nat
    requires m > 0
  {
    v % m
  }

  function Signed(u: nat, m: int): int {
    if 2 * u >= m then u - m else u
  }

  function Int32(v: int): seq<byte> { Little(Bits(v, TWO32), 4) }

  function Int64(v: int): seq<byte> { Little(Bits(v, TWO64), 8) }

  function Read32(s: seq<byte>): int
    requires |s| == 4
  {
    Signed(Value(s), TWO32)
  }

  function Read64(s: seq<byte>): int
    requires |s| == 8
  {
    Signed(Value(s), TWO64)
  }

  lemma Int32RoundTrip(v: int)
    requires -TWO31 <= v < TWO31
    ensures Read32(Int32(v)) == v
  {
    Powers();
    ValueOfLittle(Bits(v, TWO32), 4);
  }

  lemma Int64RoundTrip(v: int)
    requires -TWO63 <= v < TWO63
    ensures Read64(Int64(v)) == v
  {
    Powers();
    ValueOfLittle(Bits(v, TWO64), 8);
  }

  /** A 32-bit value that the reader takes as unsigned: `uid_t`, `gid_t`, `mode_t`. */
  function ReadU32(s: seq<byte>): nat
    requires |s| == 4
  {
    Bits(Read32(s), TWO32)
  }

  lemma U32RoundTrip(v: nat)
    requires v < TWO32
    ensures ReadU32(Int32(v)) == v
  {
    Powers();
    ValueOfLittle(Bits(v, TWO32), 4);
  }
}
